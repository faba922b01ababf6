/** What the indexes of a source say about everything that happened to it. */
module BehaviorHistory {
  import opened Prelude
  import opened Indexes
  import opened Behavior
  import W = Windows

  // ---------------------------------------------------------- when an entry is counted

  /** The keys that some mark names. */
  ghost function Named<K>(marks: seq<Option<K>>): set<K> {
    set m | m in marks && m.Some? :: m.value
  }

  lemma {:induction false} CountsNamed<K>(marks: seq<Option<K>>, key: K)
    ensures Count(marks, key) > 0 <==> key in Named(marks)
  {
    if marks != [] {
      CountsNamed(marks[1..], key);
      assert forall m :: m in marks <==> m == marks[0] || m in marks[1..];
      assert key in Named(marks) <==> Some(key) in marks;
      assert key in Named(marks[1..]) <==> Some(key) in marks[1..];
    }
  }

  lemma NamedAreKeys<K(!new)>(m: Index<K>, marks: seq<Option<K>>)
    requires Recounts(m, marks)
    ensures m.Keys == Named(marks)
  {
    forall key ensures key in m <==> key in Named(marks) {
      assert Get(m, key) == Count(marks, key);
      CountsNamed(marks, key);
    }
  }

  /** Known to some live entry, or fewer than `cap` keys are. */
  ghost predicate Fits<K>(known: set<K>, key: K, cap: nat) {
    key in known || |known| < cap
  }

  /** The ports counted for one host. */
  ghost function PortsNamed(marks: seq<Option<(Addr, nat)>>, host: Addr): set<nat> {
    set m | m in marks && m.Some? && m.value.0 == host :: m.value.1
  }

  lemma PortsAreKeys(m: Nested<Addr, nat>, marks: seq<Option<(Addr, nat)>>, host: Addr)
    requires NestedRecounts(m, marks)
    ensures Inner(m, host).Keys == PortsNamed(marks, host)
  {
    forall p ensures p in Inner(m, host) <==> p in PortsNamed(marks, host) {
      assert Get(Inner(m, host), p) == Count(marks, (host, p));
      CountsNamed(marks, (host, p));
      assert (host, p) in Named(marks) <==> Some((host, p)) in marks;
      assert p in PortsNamed(marks, host) <==> Some((host, p)) in marks;
    }
  }

  /** The flags of a new connection, from the live ones before it. */
  ghost predicate FlaggedBy(e: Event, before: seq<Event>, limits: Limits) {
    && (e.destTracked <==> Fits(Named(Marks(before, DestMark)), e.dest, limits.destinations))
    && (e.globalTracked <==> e.port.Some? && Fits(Named(Marks(before, PortMark)), e.port.value, limits.ports))
    && (e.portTracked <==> e.port.Some? && e.destTracked
                           && Fits(PortsNamed(Marks(before, HostPortMark), e.dest), e.port.value, limits.ports))
    && (e.pairTracked <==> Fits(Named(Marks(before, PairMark)), (e.dest, e.port), limits.destinations))
  }

  lemma FlagsFromMarks(c: Counts, events: seq<Event>, limits: Limits, dest: Addr, port: Option<nat>, at: int)
    requires Exact(c, events)
    ensures FlaggedBy(Flagged(c, limits, dest, port, at), events, limits)
  {
    NamedAreKeys(c.dests, Marks(events, DestMark));
    NamedAreKeys(c.ports, Marks(events, PortMark));
    NamedAreKeys(c.pairs, Marks(events, PairMark));
    PortsAreKeys(c.hostPorts, Marks(events, HostPortMark), dest);
  }

  lemma RunLonger(c: Config, firstSeen: int, ops: seq<Op>, op: Op)
    ensures Run(c, firstSeen, ops + [op]) == Step(c, Run(c, firstSeen, ops), op)
  {
    AfterAppend(c, Initial(firstSeen), ops, op);
    AfterOne(c, Run(c, firstSeen, ops), op);
  }

  /** The last connection is this one, flagged by those before it. */
  ghost predicate LastFlagged(events: seq<Event>, limits: Limits, dest: Addr, port: Option<nat>, at: int) {
    && events != []
    && var e := events[|events| - 1];
       e.at == at && e.dest == dest && e.port == port && FlaggedBy(e, events[..|events| - 1], limits)
  }

  lemma AdmittedFlagged(b: SoundBench, dest: Addr, port: Option<nat>, at: int)
    ensures LastFlagged(b.live.AdmitEvent(b.limits, dest, port, at).events, b.limits, dest, port, at)
  {
    var e := Flagged(b.live.counts, b.limits, dest, port, at);
    FlagsFromMarks(b.live.counts, b.live.events, b.limits, dest, port, at);
    assert (b.live.events + [e])[..|b.live.events|] == b.live.events;
  }

  lemma OpenedFlagged(c: Config, b: SoundBench, op: Op) returns (live: LiveWindow)
    requires op.Opened? && b.limits == c.limits
    ensures live == Apply(c, b.live, op) && LastFlagged(live.events, c.limits, op.dest, op.port, op.at)
  {
    var room := b;
    if |b.live.events| >= b.limits.events && b.live.events != [] {
      room := ExpireEventSound(b);
    }
    AdmittedFlagged(room, op.dest, op.port, op.at);
    live := room.live.AdmitEvent(b.limits, op.dest, op.port, op.at);
  }

  /** The indexes once the stale entries are out. */
  lemma LeftBench(c: Config, firstSeen: int, ops: seq<Op>, horizon: int) returns (b: SoundBench)
    ensures b == Bench(c.limits, Run(c, firstSeen, ops).live.Expire(horizon))
  {
    b := RunBench(c, firstSeen, ops);
    b := ExpireSound(b, horizon);
  }

  /**
   After every run a new connection is counted in an index exactly when a live connection already is under its key,
   or fewer keys than the cap have one.
   */
  lemma ConnectionsCounted(c: Config, firstSeen: int, ops: seq<Op>, dest: Addr, port: Option<nat>, at: int)
    ensures LastFlagged(Run(c, firstSeen, ops + [Opened(dest, port, at)]).live.events, c.limits, dest, port, at)
  {
    RunLonger(c, firstSeen, ops, Opened(dest, port, at));
    var b := LeftBench(c, firstSeen, ops, WindowStart(c, Max(Run(c, firstSeen, ops).lastSeen, at)));
    var live := OpenedFlagged(c, b, Opened(dest, port, at));
    assert live == Run(c, firstSeen, ops + [Opened(dest, port, at)]).live;
  }

  /** The last failure is this one, counted exactly when its destination is known to those before it or fits. */
  ghost predicate LastCounted(failures: seq<Failure>, limits: Limits, dest: Addr, at: int) {
    && failures != []
    && var f, before := failures[|failures| - 1], failures[..|failures| - 1];
       && f.at == at && f.dest == dest
       && (f.tracked <==> Fits(Named(Marks(before, FailureMark)), dest, limits.destinations))
  }

  lemma AdmittedCounted(b: SoundBench, dest: Addr, at: int)
    ensures LastCounted(b.live.AdmitFailure(b.limits, dest, at).failures, b.limits, dest, at)
  {
    var failures := b.live.AdmitFailure(b.limits, dest, at).failures;
    NamedAreKeys(b.live.failureCounts, Marks(b.live.failures, FailureMark));
    assert failures[..|b.live.failures|] == b.live.failures;
  }

  lemma FailedCounted(c: Config, b: SoundBench, op: Op) returns (live: LiveWindow)
    requires op.Ended? && op.failed && b.limits == c.limits
    ensures live == Apply(c, b.live, op) && LastCounted(live.failures, c.limits, op.dest, op.at)
  {
    var room := b;
    if |b.live.failures| >= b.limits.events && b.live.failures != [] {
      room := ExpireFailureSound(b);
    }
    AdmittedCounted(room, op.dest, op.at);
    live := room.live.AdmitFailure(b.limits, op.dest, op.at);
  }

  /** The same for an unanswered attempt. */
  lemma FailuresCounted(c: Config, firstSeen: int, ops: seq<Op>, dest: Addr, at: int)
    ensures LastCounted(Run(c, firstSeen, ops + [Ended(true, dest, at)]).live.failures, c.limits, dest, at)
  {
    RunLonger(c, firstSeen, ops, Ended(true, dest, at));
    var b := LeftBench(c, firstSeen, ops, WindowStart(c, Max(Run(c, firstSeen, ops).lastSeen, at)));
    var live := FailedCounted(c, b, Ended(true, dest, at));
    assert live == Run(c, firstSeen, ops + [Ended(true, dest, at)]).live;
  }

  // ------------------------------------------------------------ the window of the history

  predicate IsOpen(op: Op) { op.Opened? }

  predicate IsFail(op: Op) { op.Ended? && op.failed }

  /** The operations of one kind at or after the horizon, in order. */
  ghost function Since(ops: seq<Op>, kind: Op -> bool, horizon: int): seq<Op>
    decreases |ops|, 1
  {
    if ops == [] then [] else SinceBoth(ops, kind, horizon)
  }

  ghost function SinceBoth(ops: seq<Op>, kind: Op -> bool, horizon: int): seq<Op>
    requires ops != []
    decreases |ops|, 0
  {
    var last := ops[|ops| - 1];
    Since(ops[..|ops| - 1], kind, horizon) + if kind(last) && last.at >= horizon then [last] else []
  }

  /** Times never go back, and none is before the source was first seen. */
  ghost predicate Timely(firstSeen: int, ops: seq<Op>) {
    && (forall i :: 0 <= i < |ops| ==> firstSeen <= ops[i].at)
    && (forall i, j :: 0 <= i < j < |ops| ==> ops[i].at <= ops[j].at)
  }

  ghost function Latest(firstSeen: int, ops: seq<Op>): int {
    if ops == [] then firstSeen else ops[|ops| - 1].at
  }

  lemma {:induction false} SeenLatest(c: Config, firstSeen: int, ops: seq<Op>)
    requires Timely(firstSeen, ops)
    ensures Run(c, firstSeen, ops).lastSeen == Latest(firstSeen, ops)
  {
    if ops != [] {
      assert Run(c, firstSeen, ops) == AfterLast(c, Initial(firstSeen), ops);
      SeenLatest(c, firstSeen, ops[..|ops| - 1]);
    }
  }

  /** Whatever the order of times, the clock stands at the latest of all, and never before the source was first seen. */
  lemma {:induction false} ClockIsLatest(c: Config, firstSeen: int, ops: seq<Op>)
    ensures
      var now := Run(c, firstSeen, ops).lastSeen;
      && firstSeen <= now && (forall op :: op in ops ==> op.at <= now)
      && (now == firstSeen || exists op :: op in ops && op.at == now)
  {
    if ops != [] {
      var rest, last := ops[..|ops| - 1], ops[|ops| - 1];
      assert Run(c, firstSeen, ops) == AfterLast(c, Initial(firstSeen), ops);
      ClockIsLatest(c, firstSeen, rest);
      assert forall op :: op in ops <==> op in rest || op == last;
    }
  }

  ghost function Mapped<E>(ops: seq<Op>, f: Op -> E): (r: seq<E>)
    ensures |r| == |ops|
  {
    seq(|ops|, i requires 0 <= i < |ops| => f(ops[i]))
  }

  lemma MappedLast<E>(ops: seq<Op>, op: Op, f: Op -> E)
    ensures Mapped(ops + [op], f) == Mapped(ops, f) + [f(op)]
  {
  }

  /** What is left once stale entries have come off the front. */
  ghost function Left<E>(queue: seq<E>, stale: E -> bool): seq<E> {
    if queue != [] && stale(queue[0]) then Left(queue[1..], stale) else queue
  }

  lemma {:induction false} LeftFresh<E>(queue: seq<E>, e: E, stale: E -> bool)
    requires !stale(e)
    ensures Left(queue + [e], stale) == Left(queue, stale) + [e]
  {
    if queue != [] && stale(queue[0]) {
      assert (queue + [e])[1..] == queue[1..] + [e];
      LeftFresh(queue[1..], e, stale);
    } else if queue == [] {
      assert queue + [e] == [e];
    }
  }

  lemma {:induction false} LeftNone<E>(queue: seq<E>, stale: E -> bool)
    requires forall e :: e in queue ==> stale(e)
    ensures Left(queue, stale) == []
  {
    if queue != [] {
      LeftNone(queue[1..], stale);
    }
  }

  lemma {:induction false} SinceAmong(ops: seq<Op>, kind: Op -> bool, horizon: int)
    ensures forall op :: op in Since(ops, kind, horizon) ==> op in ops && kind(op) && op.at >= horizon
  {
    if ops != [] {
      SinceAmong(ops[..|ops| - 1], kind, horizon);
      assert Since(ops, kind, horizon) == SinceBoth(ops, kind, horizon);
    }
  }

  lemma {:induction false} SinceNone(ops: seq<Op>, kind: Op -> bool, horizon: int)
    requires forall op :: op in ops ==> op.at < horizon
    ensures Since(ops, kind, horizon) == []
  {
    if ops != [] {
      SinceNone(ops[..|ops| - 1], kind, horizon);
      assert Since(ops, kind, horizon) == SinceBoth(ops, kind, horizon);
    }
  }

  lemma SinceLast(ops: seq<Op>, op: Op, kind: Op -> bool, horizon: int)
    ensures Since(ops + [op], kind, horizon)
         == if kind(op) && op.at >= horizon then Since(ops, kind, horizon) + [op] else Since(ops, kind, horizon)
  {
    assert (ops + [op])[..|ops|] == ops;
    assert Since(ops + [op], kind, horizon) == SinceBoth(ops + [op], kind, horizon);
  }

  /** In a timely history, dropping stale entries off the front is moving the horizon. */
  lemma {:induction false} LeftIsSince<E>(
    ops: seq<Op>, kind: Op -> bool, f: Op -> E, stale: E -> bool, horizon: int, later: int)
    requires horizon <= later && forall i, j :: 0 <= i < j < |ops| ==> ops[i].at <= ops[j].at
    requires forall op :: stale(f(op)) <==> op.at < later
    ensures Left(Mapped(Since(ops, kind, horizon), f), stale) == Mapped(Since(ops, kind, later), f)
  {
    if ops != [] {
      var rest, last := ops[..|ops| - 1], ops[|ops| - 1];
      LeftIsSince(rest, kind, f, stale, horizon, later);
      assert ops == rest + [last];
      SinceLast(rest, last, kind, horizon);
      SinceLast(rest, last, kind, later);
      if last.at < later {
        assert forall op :: op in ops ==> op.at < later;
        SinceNone(ops, kind, later);
        AllStale(Since(ops, kind, horizon), ops, kind, f, stale, horizon, later);
      } else if kind(last) {
        MappedLast(Since(rest, kind, horizon), last, f);
        MappedLast(Since(rest, kind, later), last, f);
        LeftFresh(Mapped(Since(rest, kind, horizon), f), f(last), stale);
      }
    }
  }

  lemma AllStale<E>(
    since: seq<Op>, ops: seq<Op>, kind: Op -> bool, f: Op -> E, stale: E -> bool, horizon: int, later: int)
    requires since == Since(ops, kind, horizon) && forall op :: op in ops ==> op.at < later
    requires forall op :: stale(f(op)) <==> op.at < later
    ensures Left(Mapped(since, f), stale) == []
  {
    SinceAmong(ops, kind, horizon);
    forall e | e in Mapped(since, f) ensures stale(e) {
      var i :| 0 <= i < |since| && Mapped(since, f)[i] == e;
      assert since[i] in since && e == f(since[i]);
    }
    LeftNone(Mapped(since, f), stale);
  }

  // -------------------------------------------------------------- while no cap is reached

  /** The entry of a connection that every index counts. */
  function Whole(op: Op): Event {
    if op.Opened? then Entry(op.at, op.dest, op.port, true, op.port.Some?, op.port.Some?, true)
    else Entry(op.at, 0, None, false, false, false, false)
  }

  function Miss(op: Op): Failure { Failure(op.at, if op.Ended? then op.dest else 0, true) }

  function StaleEvent(horizon: int): Event -> bool { (e: Event) => e.at < horizon }

  function StaleFailure(horizon: int): Failure -> bool { (f: Failure) => f.at < horizon }

  ghost function Hosts(ops: seq<Op>): set<Addr> { set op | op in ops && !op.Pruned? :: op.dest }

  ghost function PortsOf(ops: seq<Op>): set<nat> { set op | op in ops && op.Opened? && op.port.Some? :: op.port.value }

  ghost function PairsOf(ops: seq<Op>): set<(Addr, Option<nat>)> {
    set op | op in ops && op.Opened? :: (op.dest, op.port)
  }

  /** What the window holds is within every cap. */
  ghost predicate Within(limits: Limits, opens: seq<Op>, fails: seq<Op>) {
    && |opens| <= limits.events && |Hosts(opens)| <= limits.destinations && |PortsOf(opens)| <= limits.ports
    && |PairsOf(opens)| <= limits.destinations && |fails| <= limits.events && |Hosts(fails)| <= limits.destinations
  }

  /** It was so after every operation. */
  ghost predicate Ample(c: Config, ops: seq<Op>) {
    && c.window >= 0
    && (ops == []
        || (var horizon := ops[|ops| - 1].at - c.window;
            && Ample(c, ops[..|ops| - 1])
            && Fitting(c.limits, ops, horizon)))
  }

  ghost predicate Fitting(limits: Limits, ops: seq<Op>, horizon: int) {
    Within(limits, Since(ops, IsOpen, horizon), Since(ops, IsFail, horizon))
  }

  lemma {:induction false} EventsLeft(l: LiveWindow, horizon: int)
    ensures l.StaleEventsOut(horizon).events == Left(l.events, StaleEvent(horizon))
    ensures l.StaleEventsOut(horizon).failures == l.failures
    decreases |l.events|
  {
    if l.events != [] && l.events[0].at < horizon {
      EventsLeft(l.ExpireEvent(), horizon);
    }
  }

  lemma {:induction false} FailuresLeft(l: LiveWindow, horizon: int)
    ensures l.StaleFailuresOut(horizon).failures == Left(l.failures, StaleFailure(horizon))
    ensures l.StaleFailuresOut(horizon).events == l.events
    decreases |l.failures|
  {
    if l.failures != [] && l.failures[0].at < horizon {
      FailuresLeft(l.ExpireFailure(), horizon);
    }
  }

  /** The marks of such entries, from the operations. */
  lemma MarksOfMapped<E, K>(ops: seq<Op>, f: Op -> E, mark: E -> Option<K>, m: Option<K>)
    ensures m in Marks(Mapped(ops, f), mark) <==> exists op :: op in ops && m == mark(f(op))
  {
    var marks := Marks(Mapped(ops, f), mark);
    if m in marks {
      var i :| 0 <= i < |marks| && marks[i] == m;
      assert ops[i] in ops && m == mark(f(ops[i]));
    }
    forall op | op in ops && m == mark(f(op)) ensures m in marks {
      var i :| 0 <= i < |ops| && ops[i] == op;
      assert marks[i] == m;
    }
  }

  /** Every entry being counted, the keys named are those of the connections. */
  lemma WholeNames(opens: seq<Op>)
    requires forall op :: op in opens ==> op.Opened?
    ensures Named(Marks(Mapped(opens, Whole), DestMark)) == Hosts(opens)
    ensures Named(Marks(Mapped(opens, Whole), PortMark)) == PortsOf(opens)
    ensures Named(Marks(Mapped(opens, Whole), PairMark)) == PairsOf(opens)
  {
    forall d: Addr ensures d in Named(Marks(Mapped(opens, Whole), DestMark)) <==> d in Hosts(opens) {
      MarksOfMapped(opens, Whole, DestMark, Some(d));
    }
    forall p: nat ensures p in Named(Marks(Mapped(opens, Whole), PortMark)) <==> p in PortsOf(opens) {
      MarksOfMapped(opens, Whole, PortMark, Some(p));
    }
    forall pair: (Addr, Option<nat>)
      ensures pair in Named(Marks(Mapped(opens, Whole), PairMark)) <==> pair in PairsOf(opens)
    {
      MarksOfMapped(opens, Whole, PairMark, Some(pair));
    }
  }

  lemma PortsNamedOfWhole(opens: seq<Op>, host: Addr, p: nat)
    requires forall op :: op in opens ==> op.Opened?
    ensures p in PortsNamed(Marks(Mapped(opens, Whole), HostPortMark), host)
            <==> exists op :: op in opens && op.dest == host && op.port == Some(p)
  {
    var marks := Marks(Mapped(opens, Whole), HostPortMark);
    MarksOfMapped(opens, Whole, HostPortMark, Some((host, p)));
    assert p in PortsNamed(marks, host) <==> Some((host, p)) in marks;
  }

  lemma FitsOneMore<K>(known: set<K>, more: set<K>, key: K, cap: nat)
    requires known + {key} <= more && |more| <= cap
    ensures Fits(known, key, cap)
  {
    if key !in known {
      SubsetSize(known + {key}, more);
    }
  }

  /** While the caps hold the window, every index counts the new connection. */
  lemma AdmitsWhole(opens: seq<Op>, op: Op, limits: Limits, e: Event)
    requires op.Opened? && forall o :: o in opens ==> o.Opened?
    requires Within(limits, opens + [op], [])
    requires e.at == op.at && e.dest == op.dest && e.port == op.port && FlaggedBy(e, Mapped(opens, Whole), limits)
    ensures e == Whole(op)
  {
    var all := opens + [op];
    WholeNames(opens);
    FitsOneMore(Hosts(opens), Hosts(all), op.dest, limits.destinations);
    FitsOneMore(PairsOf(opens), PairsOf(all), (op.dest, op.port), limits.destinations);
    if op.port.Some? {
      FitsOneMore(PortsOf(opens), PortsOf(all), op.port.value, limits.ports);
      var here := PortsNamed(Marks(Mapped(opens, Whole), HostPortMark), op.dest);
      forall p | p in here ensures p in PortsOf(all) {
        PortsNamedOfWhole(opens, op.dest, p);
      }
      FitsOneMore(here, PortsOf(all), op.port.value, limits.ports);
    }
  }

  /** The live entries are those of the window, each counted everywhere. */
  ghost predicate EventsShow(events: seq<Event>, opens: seq<Op>) {
    events == Mapped(opens, Whole) && forall op :: op in opens ==> op.Opened?
  }

  ghost predicate FailuresShow(failures: seq<Failure>, fails: seq<Op>) {
    failures == Mapped(fails, Miss) && forall op :: op in fails ==> IsFail(op)
  }

  ghost predicate Shows(live: LiveWindow, ops: seq<Op>, horizon: int) {
    && EventsShow(live.events, Since(ops, IsOpen, horizon))
    && FailuresShow(live.failures, Since(ops, IsFail, horizon))
  }

  lemma OpenShown(b: SoundBench, opens: seq<Op>, op: Op)
    requires op.Opened? && EventsShow(b.live.events, opens) && Within(b.limits, opens + [op], [])
    ensures b.live.EventRoom(b.limits.events) == b.live
    ensures EventsShow(b.live.AdmitEvent(b.limits, op.dest, op.port, op.at).events, opens + [op])
  {
    var e := Flagged(b.live.counts, b.limits, op.dest, op.port, op.at);
    FlagsFromMarks(b.live.counts, b.live.events, b.limits, op.dest, op.port, op.at);
    AdmitsWhole(opens, op, b.limits, e);
    MappedLast(opens, op, Whole);
  }

  lemma FailShown(b: SoundBench, fails: seq<Op>, dest: Addr, at: int)
    requires FailuresShow(b.live.failures, fails) && Within(b.limits, [], fails + [Ended(true, dest, at)])
    ensures b.live.FailureRoom(b.limits.events) == b.live
    ensures FailuresShow(b.live.AdmitFailure(b.limits, dest, at).failures, fails + [Ended(true, dest, at)])
  {
    MissAdmitted(b.live.failureCounts, fails, Ended(true, dest, at), b.limits.destinations);
    MappedLast(fails, Ended(true, dest, at), Miss);
  }

  lemma MissAdmitted(counts: Index<Addr>, fails: seq<Op>, op: Op, cap: nat)
    requires Recounts(counts, Marks(Mapped(fails, Miss), FailureMark))
    requires IsFail(op) && (forall o :: o in fails ==> IsFail(o)) && |Hosts(fails + [op])| <= cap
    ensures Admits(counts, op.dest, cap)
  {
    NamedAreKeys(counts, Marks(Mapped(fails, Miss), FailureMark));
    MissNames(fails);
    FitsOneMore(Hosts(fails), Hosts(fails + [op]), op.dest, cap);
  }

  lemma MissNames(fails: seq<Op>)
    requires forall op :: op in fails ==> IsFail(op)
    ensures Named(Marks(Mapped(fails, Miss), FailureMark)) == Hosts(fails)
  {
    forall d: Addr ensures d in Named(Marks(Mapped(fails, Miss), FailureMark)) <==> d in Hosts(fails) {
      MarksOfMapped(fails, Miss, FailureMark, Some(d));
    }
  }

  lemma ExpireShown(b: SoundBench, ops: seq<Op>, horizon: int, later: int) returns (b': SoundBench)
    requires Shows(b.live, ops, horizon) && horizon <= later
    requires forall i, j :: 0 <= i < j < |ops| ==> ops[i].at <= ops[j].at
    ensures b' == b.(live := b.live.Expire(later)) && Shows(b'.live, ops, later)
  {
    b' := ExpireSound(b, later);
    EventsLeft(b.live, later);
    FailuresLeft(b.live.StaleEventsOut(later), later);
    LeftIsSince(ops, IsOpen, Whole, StaleEvent(later), horizon, later);
    LeftIsSince(ops, IsFail, Miss, StaleFailure(later), horizon, later);
    SinceAmong(ops, IsOpen, later);
    SinceAmong(ops, IsFail, later);
  }

  lemma WithinParts(limits: Limits, opens: seq<Op>, fails: seq<Op>)
    requires Within(limits, opens, fails)
    ensures Within(limits, opens, []) && Within(limits, [], fails)
  {
    assert Hosts([]) == {} && PortsOf([]) == {} && PairsOf([]) == {};
  }

  lemma ApplyShown(c: Config, b: SoundBench, ops: seq<Op>, op: Op, horizon: int) returns (b': SoundBench)
    requires b.limits == c.limits && Shows(b.live, ops, horizon) && op.at >= horizon
    requires Fitting(c.limits, ops + [op], horizon)
    ensures b' == b.(live := Apply(c, b.live, op)) && Shows(b'.live, ops + [op], horizon)
  {
    b' := ApplySound(c, b, op);
    var opens, fails := Since(ops, IsOpen, horizon), Since(ops, IsFail, horizon);
    SinceLast(ops, op, IsOpen, horizon);
    SinceLast(ops, op, IsFail, horizon);
    WithinParts(c.limits, Since(ops + [op], IsOpen, horizon), Since(ops + [op], IsFail, horizon));
    if op.Opened? {
      OpenShown(b, opens, op);
    } else if IsFail(op) {
      FailShown(b, fails, op.dest, op.at);
    }
  }

  lemma StepShown(c: Config, b: SoundBench, ops: seq<Op>, op: Op, horizon: int, later: int) returns (b': SoundBench)
    requires b.limits == c.limits && Shows(b.live, ops, horizon) && horizon <= later <= op.at
    requires forall i, j :: 0 <= i < j < |ops| ==> ops[i].at <= ops[j].at
    requires Fitting(c.limits, ops + [op], later)
    ensures b' == b.(live := Apply(c, b.live.Expire(later), op)) && Shows(b'.live, ops + [op], later)
  {
    b' := ExpireShown(b, ops, horizon, later);
    b' := ApplyShown(c, b', ops, op, later);
  }

  /** Where the window of a timely history begins. */
  ghost function Horizon(c: Config, firstSeen: int, ops: seq<Op>): int { Latest(firstSeen, ops) - c.window }

  /** What the last operation of a timely history does to the live entries. */
  lemma LiveLonger(c: Config, firstSeen: int, ops: seq<Op>, op: Op, later: int)
    requires Timely(firstSeen, ops + [op]) && later == op.at - c.window
    ensures Run(c, firstSeen, ops + [op]).live == Apply(c, Run(c, firstSeen, ops).live.Expire(later), op)
  {
    RunLonger(c, firstSeen, ops, op);
    TimelyRest(firstSeen, ops, op);
    SeenLatest(c, firstSeen, ops);
  }

  lemma TimelyRest(firstSeen: int, ops: seq<Op>, op: Op)
    requires Timely(firstSeen, ops + [op])
    ensures Timely(firstSeen, ops) && Latest(firstSeen, ops) <= op.at
  {
    var all := ops + [op];
    assert all[..|ops|] == ops && all[|ops|] == op;
    assert forall i :: 0 <= i < |ops| ==> all[i] == ops[i];
  }

  lemma RunStepShown(
    c: Config, firstSeen: int, ops: seq<Op>, op: Op, b: SoundBench, horizon: int, later: int) returns (b': SoundBench)
    requires b == Bench(c.limits, Run(c, firstSeen, ops).live) && Shows(b.live, ops, horizon)
    requires Timely(firstSeen, ops + [op]) && later == op.at - c.window && horizon <= later <= op.at
    requires Fitting(c.limits, ops + [op], later)
    ensures b' == Bench(c.limits, Run(c, firstSeen, ops + [op]).live) && Shows(b'.live, ops + [op], later)
  {
    TimelyRest(firstSeen, ops, op);
    LiveLonger(c, firstSeen, ops, op, later);
    b' := StepShown(c, b, ops, op, horizon, later);
  }

  lemma AmpleNow(c: Config, firstSeen: int, ops: seq<Op>, horizon: int)
    requires ops != [] && Ample(c, ops) && horizon == Horizon(c, firstSeen, ops)
    ensures Ample(c, ops[..|ops| - 1]) && Fitting(c.limits, ops, horizon)
  {
  }

  /** In a timely history that never reached a cap, the live entries are exactly those inside the window. */
  lemma {:induction false} RunShown(c: Config, firstSeen: int, ops: seq<Op>) returns (b: SoundBench)
    requires Timely(firstSeen, ops) && Ample(c, ops)
    ensures b == Bench(c.limits, Run(c, firstSeen, ops).live) && Shows(b.live, ops, Horizon(c, firstSeen, ops))
  {
    if ops == [] {
      b := RunBench(c, firstSeen, ops);
    } else {
      var rest, op := ops[..|ops| - 1], ops[|ops| - 1];
      assert ops == rest + [op];
      TimelyRest(firstSeen, rest, op);
      AmpleNow(c, firstSeen, ops, Horizon(c, firstSeen, ops));
      b := RunShown(c, firstSeen, rest);
      b := RunStepShown(c, firstSeen, rest, op, b, Horizon(c, firstSeen, rest), Horizon(c, firstSeen, ops));
    }
  }

  // ------------------------------------------------------------- counts over the history

  /** How many operations pass the test. */
  ghost function Tally(ops: seq<Op>, test: Op -> bool): nat {
    if ops == [] then 0 else Tally(ops[..|ops| - 1], test) + if test(ops[|ops| - 1]) then 1 else 0
  }

  /** Connections to a host, on a port, to a host on a port or none, at or after the horizon; and failures. */
  function OpenTo(dest: Addr, horizon: int): Op -> bool {
    (op: Op) => op.Opened? && op.dest == dest && op.at >= horizon
  }

  function OpenOn(port: nat, horizon: int): Op -> bool {
    (op: Op) => op.Opened? && op.port == Some(port) && op.at >= horizon
  }

  function OpenAt(dest: Addr, port: Option<nat>, horizon: int): Op -> bool {
    (op: Op) => op.Opened? && op.dest == dest && op.port == port && op.at >= horizon
  }

  function FailTo(dest: Addr, horizon: int): Op -> bool {
    (op: Op) => op.Ended? && op.failed && op.dest == dest && op.at >= horizon
  }

  lemma {:induction false} CountIsTally<E, K>(
    ops: seq<Op>, kind: Op -> bool, horizon: int, f: Op -> E, mark: E -> Option<K>, key: K, test: Op -> bool)
    requires forall op :: test(op) <==> kind(op) && op.at >= horizon && mark(f(op)) == Some(key)
    ensures Count(Marks(Mapped(Since(ops, kind, horizon), f), mark), key) == Tally(ops, test)
  {
    if ops != [] {
      var rest, last := ops[..|ops| - 1], ops[|ops| - 1];
      CountIsTally(rest, kind, horizon, f, mark, key, test);
      assert ops == rest + [last];
      SinceLast(rest, last, kind, horizon);
      var since := Since(rest, kind, horizon);
      MappedLast(since, last, f);
      MarksPush(Mapped(since, f), f(last), mark);
      CountLast(Marks(Mapped(since, f), mark), mark(f(last)), key);
    }
  }

  /** What each index must hold. */
  ghost predicate CountsHistory(l: LiveWindow, ops: seq<Op>, h: int) {
    && (forall d :: Get(l.counts.dests, d) == Tally(ops, OpenTo(d, h)))
    && (forall p :: Get(l.counts.ports, p) == Tally(ops, OpenOn(p, h)))
    && (forall d, p :: Get(Inner(l.counts.hostPorts, d), p) == Tally(ops, OpenAt(d, Some(p), h)))
    && (forall d, p :: Get(l.counts.pairs, (d, p)) == Tally(ops, OpenAt(d, p, h)))
    && (forall d :: Get(l.failureCounts, d) == Tally(ops, FailTo(d, h)))
  }

  lemma ShownCounts(b: SoundBench, ops: seq<Op>, h: int)
    requires Shows(b.live, ops, h)
    ensures CountsHistory(b.live, ops, h)
  {
    var c := b.live.counts;
    forall d: Addr ensures Get(c.dests, d) == Tally(ops, OpenTo(d, h)) {
      CountIsTally(ops, IsOpen, h, Whole, DestMark, d, OpenTo(d, h));
    }
    forall p: nat ensures Get(c.ports, p) == Tally(ops, OpenOn(p, h)) {
      CountIsTally(ops, IsOpen, h, Whole, PortMark, p, OpenOn(p, h));
    }
    forall d: Addr, p: nat ensures Get(Inner(c.hostPorts, d), p) == Tally(ops, OpenAt(d, Some(p), h)) {
      CountIsTally(ops, IsOpen, h, Whole, HostPortMark, (d, p), OpenAt(d, Some(p), h));
    }
    forall d: Addr, p: Option<nat> ensures Get(c.pairs, (d, p)) == Tally(ops, OpenAt(d, p, h)) {
      CountIsTally(ops, IsOpen, h, Whole, PairMark, (d, p), OpenAt(d, p, h));
    }
    forall d: Addr ensures Get(b.live.failureCounts, d) == Tally(ops, FailTo(d, h)) {
      CountIsTally(ops, IsFail, h, Miss, FailureMark, d, FailTo(d, h));
    }
  }

  /**
   In a timely history that never reached a cap, every index counts exactly what happened inside the window: the
   connections to each host, on each port, to each host and port, and the unanswered attempts to each host.
   */
  lemma IndexesCountHistory(c: Config, firstSeen: int, ops: seq<Op>)
    requires Timely(firstSeen, ops) && Ample(c, ops)
    ensures CountsHistory(Run(c, firstSeen, ops).live, ops, Horizon(c, firstSeen, ops))
    ensures Run(c, firstSeen, ops).lastSeen == Latest(firstSeen, ops)
  {
    var b := RunShown(c, firstSeen, ops);
    SeenLatest(c, firstSeen, ops);
    ShownCounts(b, ops, Horizon(c, firstSeen, ops));
  }

  /** And its keys are the hosts reached inside the window. */
  lemma HostsAreKeys(c: Config, firstSeen: int, ops: seq<Op>)
    requires Timely(firstSeen, ops) && Ample(c, ops)
    ensures Run(c, firstSeen, ops).live.counts.dests.Keys == Hosts(Since(ops, IsOpen, Horizon(c, firstSeen, ops)))
  {
    var b := RunShown(c, firstSeen, ops);
    var opens := Since(ops, IsOpen, Horizon(c, firstSeen, ops));
    NamedAreKeys(b.live.counts.dests, Marks(b.live.events, DestMark));
    WholeNames(opens);
  }

  /** The ports reached on one host. */
  ghost function PortsAt(ops: seq<Op>, host: Addr): set<nat> {
    set op | op in ops && op.Opened? && op.dest == host && op.port.Some? :: op.port.value
  }

  lemma PortsNamedAre(opens: seq<Op>, host: Addr)
    requires forall op :: op in opens ==> op.Opened?
    ensures PortsNamed(Marks(Mapped(opens, Whole), HostPortMark), host) == PortsAt(opens, host)
  {
    forall p: nat
      ensures p in PortsNamed(Marks(Mapped(opens, Whole), HostPortMark), host) <==> p in PortsAt(opens, host)
    {
      PortsNamedOfWhole(opens, host, p);
    }
  }

  lemma PortsAtAreKeys(c: Config, firstSeen: int, ops: seq<Op>, host: Addr)
    requires Timely(firstSeen, ops) && Ample(c, ops)
    ensures Inner(Run(c, firstSeen, ops).live.counts.hostPorts, host).Keys
         == PortsAt(Since(ops, IsOpen, Horizon(c, firstSeen, ops)), host)
  {
    var b := RunShown(c, firstSeen, ops);
    PortsAreKeys(b.live.counts.hostPorts, Marks(b.live.events, HostPortMark), host);
    PortsNamedAre(Since(ops, IsOpen, Horizon(c, firstSeen, ops)), host);
  }

  // ---------------------------------------------------------------- floods over the history

  /** After every operation the hosts reached inside the flood window were within the cap. */
  ghost predicate HostsFit(c: Config, ops: seq<Op>) {
    && c.floodWindow >= 0
    && (ops == []
        || (&& HostsFit(c, ops[..|ops| - 1])
            && |Hosts(Since(ops, IsOpen, ops[|ops| - 1].at - c.floodWindow))| <= c.limits.destinations))
  }

  /** The kept queues are those of the hosts reached since the horizon, the newest time of each being the host's. */
  ghost predicate RecentShows(recent: Times, ops: seq<Op>, horizon: int) {
    && recent.Keys == Hosts(Since(ops, IsOpen, horizon))
    && (forall d :: d in recent ==> Newest(recent[d]) >= horizon)
    && (forall d, later :: d in recent && horizon <= later ==>
          (Newest(recent[d]) >= later <==> d in Hosts(Since(ops, IsOpen, later))))
  }

  lemma {:induction false} HostsShrink(ops: seq<Op>, horizon: int, later: int)
    requires horizon <= later
    ensures Hosts(Since(ops, IsOpen, later)) <= Hosts(Since(ops, IsOpen, horizon))
  {
    if ops != [] {
      var rest, last := ops[..|ops| - 1], ops[|ops| - 1];
      HostsShrink(rest, horizon, later);
      assert ops == rest + [last];
      HostsLonger(rest, last, horizon);
      HostsLonger(rest, last, later);
    }
  }

  lemma HostsLonger(ops: seq<Op>, op: Op, horizon: int)
    ensures Hosts(Since(ops + [op], IsOpen, horizon))
         == Hosts(Since(ops, IsOpen, horizon)) + if op.Opened? && op.at >= horizon then {op.dest} else {}
  {
    SinceLast(ops, op, IsOpen, horizon);
    var since := Since(ops, IsOpen, horizon);
    assert forall o :: o in since + [op] <==> o in since || o == op;
  }

  lemma CurrentShows(recent: Times, ops: seq<Op>, horizon: int, later: int)
    requires RecentShows(recent, ops, horizon) && horizon <= later
    ensures RecentShows(Current(recent, later), ops, later)
  {
    HostsShrink(ops, horizon, later);
    forall d: Addr ensures d in Current(recent, later) <==> d in Hosts(Since(ops, IsOpen, later)) {
    }
  }

  /** A connection that is not older than any other is remembered as its host's newest. */
  lemma RememberedShows(c: Config, recent: Times, ops: seq<Op>, op: Op, horizon: int)
    requires RecentShows(recent, ops, horizon) && op.Opened? && op.at >= horizon
    requires |Hosts(Since(ops + [op], IsOpen, horizon))| <= c.limits.destinations
    requires forall o :: o in ops ==> o.at <= op.at
    ensures Keeps(recent, c.limits.destinations, op.dest)
    ensures RecentShows(Remembered(c, recent, op.dest, op.at), ops + [op], horizon)
  {
    HostsLonger(ops, op, horizon);
    FitsOneMore(recent.Keys, Hosts(Since(ops + [op], IsOpen, horizon)), op.dest, c.limits.destinations);
    ExtendedShows(recent, ops, op, horizon, W.Push(TimesOf(recent, op.dest), c.maxFloodEntries, op.at));
  }

  lemma ExtendedShows(recent: Times, ops: seq<Op>, op: Op, horizon: int, queue: seq<int>)
    requires RecentShows(recent, ops, horizon) && op.Opened? && op.at >= horizon && Newest(queue) == op.at
    requires forall o :: o in ops ==> o.at <= op.at
    ensures RecentShows(recent[op.dest := queue], ops + [op], horizon)
  {
    HostsLonger(ops, op, horizon);
    var after := recent[op.dest := queue];
    forall d, later | d in after && horizon <= later
      ensures Newest(after[d]) >= later <==> d in Hosts(Since(ops + [op], IsOpen, later))
    {
      NewestLonger(ops, op, d, later);
    }
  }

  /** Who was reached since a time, with one more connection that is not older than any other. */
  lemma NewestLonger(ops: seq<Op>, op: Op, d: Addr, later: int)
    requires op.Opened? && forall o :: o in ops ==> o.at <= op.at
    ensures d in Hosts(Since(ops + [op], IsOpen, later))
            <==> if d == op.dest then op.at >= later else d in Hosts(Since(ops, IsOpen, later))
  {
    HostsLonger(ops, op, later);
    if op.at < later {
      SinceNone(ops, IsOpen, later);
    }
  }

  lemma NotOpenShows(recent: Times, ops: seq<Op>, op: Op, horizon: int)
    requires RecentShows(recent, ops, horizon) && !op.Opened?
    ensures RecentShows(recent, ops + [op], horizon)
  {
    HostsLonger(ops, op, horizon);
    forall d, later | d in recent && horizon <= later
      ensures Newest(recent[d]) >= later <==> d in Hosts(Since(ops + [op], IsOpen, later))
    {
      HostsLonger(ops, op, later);
    }
  }

  lemma StepRecentShows(c: Config, recent: Times, ops: seq<Op>, op: Op, horizon: int, later: int)
    requires RecentShows(recent, ops, horizon) && horizon <= later <= op.at
    requires |Hosts(Since(ops + [op], IsOpen, later))| <= c.limits.destinations
    requires forall o :: o in ops ==> o.at <= op.at
    ensures op.Opened? ==> Keeps(Current(recent, later), c.limits.destinations, op.dest)
    ensures RecentShows(if op.Opened? then Remembered(c, Current(recent, later), op.dest, op.at)
                        else Current(recent, later), ops + [op], later)
  {
    CurrentShows(recent, ops, horizon, later);
    if op.Opened? {
      RememberedShows(c, Current(recent, later), ops, op, later);
    } else {
      NotOpenShows(Current(recent, later), ops, op, later);
    }
  }

  /** Where the flood window of a timely history begins. */
  ghost function FloodHorizon(c: Config, firstSeen: int, ops: seq<Op>): int { Latest(firstSeen, ops) - c.floodWindow }

  /** What the last operation of a timely history does to the kept queues. */
  lemma RecentLonger(c: Config, firstSeen: int, ops: seq<Op>, op: Op, later: int)
    requires Timely(firstSeen, ops + [op]) && later == op.at - c.floodWindow
    ensures
      var left := Current(Run(c, firstSeen, ops).recent, later);
      && Run(c, firstSeen, ops + [op]).recent == (if op.Opened? then Remembered(c, left, op.dest, op.at) else left)
      && (op.Opened? ==>
            (Admitting(c, Run(c, firstSeen, ops), op) <==> Keeps(left, c.limits.destinations, op.dest)))
  {
    RunLonger(c, firstSeen, ops, op);
    TimelyRest(firstSeen, ops, op);
    SeenLatest(c, firstSeen, ops);
  }

  lemma NoneAfter(firstSeen: int, ops: seq<Op>, op: Op)
    requires Timely(firstSeen, ops + [op])
    ensures forall o :: o in ops ==> o.at <= op.at
  {
    var all := ops + [op];
    forall o | o in ops ensures o.at <= op.at {
      var i :| 0 <= i < |ops| && ops[i] == o;
      assert all[i] == o && all[|ops|] == op;
    }
  }

  lemma HostsFitNow(c: Config, firstSeen: int, ops: seq<Op>, horizon: int)
    requires ops != [] && HostsFit(c, ops) && horizon == FloodHorizon(c, firstSeen, ops)
    ensures HostsFit(c, ops[..|ops| - 1]) && |Hosts(Since(ops, IsOpen, horizon))| <= c.limits.destinations
  {
  }

  lemma {:induction false} RunRecentShows(c: Config, firstSeen: int, ops: seq<Op>)
    requires Timely(firstSeen, ops) && HostsFit(c, ops)
    ensures NoneTurnedAway(c, firstSeen, ops)
    ensures RecentShows(Run(c, firstSeen, ops).recent, ops, FloodHorizon(c, firstSeen, ops))
  {
    if ops != [] {
      var rest, op := ops[..|ops| - 1], ops[|ops| - 1];
      assert ops == rest + [op];
      TimelyRest(firstSeen, rest, op);
      HostsFitNow(c, firstSeen, ops, FloodHorizon(c, firstSeen, ops));
      RunRecentShows(c, firstSeen, rest);
      RecentStep(c, firstSeen, rest, op, FloodHorizon(c, firstSeen, rest), FloodHorizon(c, firstSeen, ops));
    }
  }

  lemma RecentStep(c: Config, firstSeen: int, ops: seq<Op>, op: Op, horizon: int, later: int)
    requires Timely(firstSeen, ops + [op]) && later == op.at - c.floodWindow && horizon <= later <= op.at
    requires RecentShows(Run(c, firstSeen, ops).recent, ops, horizon)
    requires |Hosts(Since(ops + [op], IsOpen, later))| <= c.limits.destinations
    ensures op.Opened? ==> Admitting(c, Run(c, firstSeen, ops), op)
    ensures RecentShows(Run(c, firstSeen, ops + [op]).recent, ops + [op], later)
  {
    NoneAfter(firstSeen, ops, op);
    StepRecentShows(c, Run(c, firstSeen, ops).recent, ops, op, horizon, later);
    RecentLonger(c, firstSeen, ops, op, later);
  }

  /** A host got that many connections since the horizon. */
  ghost predicate Hammered(ops: seq<Op>, d: Addr, horizon: int, threshold: real) {
    Tally(ops, OpenTo(d, horizon)) as real >= threshold
  }

  /**
   In a timely history whose flood window never held more hosts than the cap, the flood pattern fires exactly when
   some host got that many connections inside the flood window.
   */
  lemma FloodFromHistory(c: Config, firstSeen: int, ops: seq<Op>, threshold: real, horizon: int)
    requires Timely(firstSeen, ops) && HostsFit(c, ops) && 0.0 < threshold < c.maxFloodEntries as real
    requires horizon == FloodHorizon(c, firstSeen, ops)
    ensures Floods(c, Run(c, firstSeen, ops), threshold) <==> exists d :: Hammered(ops, d, horizon, threshold)
  {
    RunRecentShows(c, firstSeen, ops);
    SeenLatest(c, firstSeen, ops);
    FloodVerdictExact(c, firstSeen, ops, threshold);
    FloodedIsHammered(ops, horizon, threshold);
  }

  lemma FloodedIsHammered(ops: seq<Op>, horizon: int, threshold: real)
    ensures Flooded(ops, horizon, threshold) <==> exists d :: Hammered(ops, d, horizon, threshold)
  {
    forall d ensures Reaches(LogOf(ops, d), horizon, threshold) <==> Hammered(ops, d, horizon, threshold) {
      LogIsTally(ops, d, horizon);
    }
  }

  lemma {:induction false} LogIsTally(ops: seq<Op>, d: Addr, horizon: int)
    ensures W.CountAfter(LogOf(ops, d), horizon - 1) == Tally(ops, OpenTo(d, horizon))
  {
    if ops != [] {
      var rest, last := ops[..|ops| - 1], ops[|ops| - 1];
      LogIsTally(rest, d, horizon);
      if last.Opened? && last.dest == d {
        W.CountConcat(LogOf(rest, d), [last.at], horizon - 1);
        assert W.CountAfter([last.at], horizon - 1) == if last.at >= horizon then 1 else 0;
      } else {
        assert LogOf(ops, d) == LogOf(rest, d);
      }
    }
  }
}
