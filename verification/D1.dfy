/** A bounded queue of timed sightings that is pruned whenever it is measured. */
module Sightings {
  import opened Prelude

  datatype Timed<E> = Timed(at: int, item: E)

  /** The items seen between two times, both included, in order of arrival. */
  function Within<E>(queue: seq<Timed<E>>, since: int, now: int): seq<E> {
    if queue == [] then []
    else (if since <= queue[0].at <= now then [queue[0].item] else []) + Within(queue[1..], since, now)
  }

  lemma {:induction false} WithinConcat<E>(a: seq<Timed<E>>, b: seq<Timed<E>>, since: int, now: int)
    ensures Within(a + b, since, now) == Within(a, since, now) + Within(b, since, now)
  {
    if a == [] {
      assert a + b == b;
    } else {
      assert (a + b)[1..] == a[1..] + b;
      WithinConcat(a[1..], b, since, now);
    }
  }

  lemma {:induction false} WithinStale<E>(a: seq<Timed<E>>, since: int, now: int)
    requires forall i :: 0 <= i < |a| ==> a[i].at < since
    ensures Within(a, since, now) == []
  {
    if a != [] {
      WithinStale(a[1..], since, now);
    }
  }

  /** The queue is what is left of the history once entries before the bound went off the front. */
  ghost predicate LeftOf<E>(queue: seq<Timed<E>>, history: seq<Timed<E>>, bound: int) {
    && |queue| <= |history| && queue == history[|history| - |queue|..]
    && forall i :: 0 <= i < |history| - |queue| ==> history[i].at < bound
  }

  /** What went off the front is too old for any window that starts at or after the bound. */
  lemma LeftIsEnough<E>(queue: seq<Timed<E>>, history: seq<Timed<E>>, bound: int, since: int, now: int)
    requires LeftOf(queue, history, bound) && bound <= since
    ensures Within(queue, since, now) == Within(history, since, now)
  {
    var gone := history[..|history| - |queue|];
    assert history == gone + queue;
    WithinConcat(gone, queue, since, now);
    WithinStale(gone, since, now);
  }

  lemma LeftAfterPrune<E>(queue: seq<Timed<E>>, history: seq<Timed<E>>, bound: int, k: nat, later: int)
    requires LeftOf(queue, history, bound) && bound <= later && k <= |queue|
    requires forall i :: 0 <= i < k ==> queue[i].at < later
    ensures LeftOf(queue[k..], history, later)
  {
    var n := |history| - |queue|;
    forall i | 0 <= i < n + k ensures history[i].at < later {
      if i >= n {
        assert history[i] == queue[i - n];
      }
    }
  }

  lemma LeftAfterAppend<E>(queue: seq<Timed<E>>, history: seq<Timed<E>>, bound: int, e: Timed<E>)
    requires LeftOf(queue, history, bound)
    ensures LeftOf(queue + [e], history + [e], bound)
  {
    assert forall i :: 0 <= i < |history| ==> (history + [e])[i] == history[i];
  }

  /** Takes entries before the bound off the front. */
  method DropBefore<E>(queue: seq<Timed<E>>, bound: int) returns (rest: seq<Timed<E>>, ghost k: nat)
    ensures k <= |queue| && rest == queue[k..] && (forall i :: 0 <= i < k ==> queue[i].at < bound)
    ensures rest != [] ==> rest[0].at >= bound
  {
    rest, k := queue, 0;
    while rest != [] && rest[0].at < bound
      invariant k <= |queue| && rest == queue[k..] && forall i :: 0 <= i < k ==> queue[i].at < bound
      decreases |rest|
    {
      rest, k := rest[1..], k + 1;
    }
  }

  class SightingQueue<E(!new)> {
    const cap: nat
    const horizon: int
    var queue: seq<Timed<E>>
    /** Everything ever seen, whether the queue overflowed, the latest measurement, and whether these went back. */
    ghost var history: seq<Timed<E>>
    ghost var overflowed: bool
    ghost var measured: Option<int>
    ghost var steady: bool

    ghost predicate Whole()
      reads this
    {
      !overflowed && steady
    }

    ghost predicate Valid()
      reads this
    {
      && cap >= 1 && |queue| <= cap
      && (Whole() && measured.None? ==> queue == history)
      && (Whole() && measured.Some? ==> LeftOf(queue, history, measured.value - horizon))
    }

    constructor (cap: nat, horizon: int)
      requires cap >= 1
      ensures Valid() && Whole() && queue == [] && history == [] && measured == None && this.cap == cap
      ensures this.horizon == horizon
    {
      this.cap, this.horizon, queue := cap, horizon, [];
      history, overflowed, measured, steady := [], false, None, true;
    }

    method Append(at: int, item: E)
      requires Valid()
      modifies this
      ensures Valid() && history == old(history) + [Timed(at, item)] && measured == old(measured)
      ensures steady == old(steady)
      ensures overflowed == (old(overflowed) || |old(queue)| == cap)
      ensures queue == (if |old(queue)| == cap then old(queue)[1..] else old(queue)) + [Timed(at, item)]
    {
      if Whole() && measured.Some? {
        LeftAfterAppend(queue, history, measured.value - horizon, Timed(at, item));
      }
      overflowed := overflowed || |queue| == cap;
      queue := (if |queue| == cap then queue[1..] else queue) + [Timed(at, item)];
      history := history + [Timed(at, item)];
    }

    /** What a measurement reads: pruning never changes it while nothing overflowed and time went forward. */
    method Prune(now: int)
      requires Valid()
      modifies this
      ensures Valid() && history == old(history) && measured == Some(now) && overflowed == old(overflowed)
      ensures steady == (old(steady) && (old(measured).None? || old(measured).value <= now))
      ensures Whole() ==>
        forall since :: now - horizon <= since ==> Within(queue, since, now) == Within(history, since, now)
    {
      ghost var k;
      ghost var before := queue;
      var bound := now - horizon;
      queue, k := DropBefore(queue, bound);
      steady := steady && (measured.None? || measured.value <= now);
      if Whole() {
        LeftAfterPrune(before, history, if measured.Some? then measured.value - horizon else bound, k, bound);
        forall since | bound <= since ensures Within(queue, since, now) == Within(history, since, now) {
          LeftIsEnough(queue, history, bound, since, now);
        }
      }
      measured := Some(now);
    }
  }
}

/** The per-device and fan-in detectors over one window of sightings. */
module D1 {
  import opened Prelude
  import opened Sightings

  type Addr = nat
  type Mac = nat

  /** Known only once the connection has completed. */
  datatype Outcome = Outcome(failed: bool, duration: real, bytes: nat)

  /** One connection start by the device. */
  datatype Start = Start(dest: Addr, port: Option<nat>, outcome: Option<Outcome>)

  /** `median` is the statistics library's. */
  datatype Config = Config(
    minStarts: nat, brutePorts: set<nat>, maxDuration: real, tolerance: real, median: seq<nat> -> real)

  // ------------------------------------------------------------- distinct members

  /** The distinct members seen with one group. */
  ghost function Members<K, V>(pairs: seq<(K, V)>, group: K): set<V> {
    if pairs == [] then {}
    else
      var last := pairs[|pairs| - 1];
      Members(pairs[..|pairs| - 1], group) + if last.0 == group then {last.1} else {}
  }

  /** The most distinct members of any group. */
  ghost function MostDistinct<K, V>(pairs: seq<(K, V)>): nat {
    if pairs == [] then 0 else Max(MostDistinct(pairs[..|pairs| - 1]), |Members(pairs, pairs[|pairs| - 1].0)|)
  }

  lemma {:induction false} MemberSeen<K, V>(pairs: seq<(K, V)>, i: nat)
    requires i < |pairs|
    ensures pairs[i].1 in Members(pairs, pairs[i].0)
  {
    if i < |pairs| - 1 {
      MemberSeen(pairs[..|pairs| - 1], i);
    }
  }

  lemma {:induction false} MostBounds<K, V>(pairs: seq<(K, V)>, group: K)
    ensures |Members(pairs, group)| <= MostDistinct(pairs)
  {
    if pairs != [] {
      MostBounds(pairs[..|pairs| - 1], group);
    }
  }

  lemma {:induction false} MostReached<K, V>(pairs: seq<(K, V)>) returns (group: K)
    requires pairs != []
    ensures |Members(pairs, group)| == MostDistinct(pairs)
  {
    var init, last := pairs[..|pairs| - 1], pairs[|pairs| - 1].0;
    group := last;
    if init != [] {
      var before := MostReached(init);
      MostBounds(pairs, before);
      if |Members(pairs, last)| < MostDistinct(pairs) {
        group := before;
        SubsetSize(Members(init, before), Members(pairs, before));
      }
    }
  }

  lemma {:induction false} MembersConcat<K, V>(a: seq<(K, V)>, b: seq<(K, V)>, group: K)
    ensures Members(a + b, group) == Members(a, group) + Members(b, group)
  {
    if b == [] {
      assert a + b == a;
    } else {
      assert (a + b)[..|a + b| - 1] == a + b[..|b| - 1];
      MembersConcat(a, b[..|b| - 1], group);
    }
  }

  /** The measure depends on the members of each group only. */
  lemma SameMembers<K(!new), V>(x: seq<(K, V)>, y: seq<(K, V)>)
    requires forall g :: Members(x, g) == Members(y, g)
    ensures MostDistinct(x) == MostDistinct(y)
  {
    if x != [] {
      var g := MostReached(x);
      assert Members(x, g) == Members(y, g);
      MostBounds(y, g);
    }
    if y != [] {
      var g := MostReached(y);
      assert Members(x, g) == Members(y, g);
      MostBounds(x, g);
    }
  }

  /** A pair that is there already changes nothing, wherever the second one stands. */
  lemma RepeatedPair<K(!new), V>(a: seq<(K, V)>, pair: (K, V), b: seq<(K, V)>)
    requires pair in a + b
    ensures MostDistinct(a + [pair] + b) == MostDistinct(a + b)
  {
    var i :| 0 <= i < |a + b| && (a + b)[i] == pair;
    MemberSeen(a + b, i);
    forall g ensures Members(a + [pair] + b, g) == Members(a + b, g) {
      MembersConcat(a + [pair], b, g);
      MembersConcat(a, [pair], g);
      MembersConcat(a, b, g);
    }
    SameMembers(a + [pair] + b, a + b);
  }

  /** The dictionary holds the members of every group seen. */
  ghost predicate Buckets<K(!new), V>(buckets: map<K, set<V>>, pairs: seq<(K, V)>) {
    forall k :: Members(pairs, k) == if k in buckets then buckets[k] else {}
  }

  lemma BucketsExtend<K(!new), V>(buckets: map<K, set<V>>, pairs: seq<(K, V)>, i: nat)
    requires i < |pairs| && Buckets(buckets, pairs[..i])
    ensures
      var (k, v) := pairs[i];
      Buckets(buckets[k := (if k in buckets then buckets[k] else {}) + {v}], pairs[..i + 1])
  {
    var (k, v) := pairs[i];
    var after := buckets[k := (if k in buckets then buckets[k] else {}) + {v}];
    forall g ensures Members(pairs[..i + 1], g) == if g in after then after[g] else {} {
      assert pairs[..i + 1][..i] == pairs[..i];
      assert Members(pairs[..i], g) == if g in buckets then buckets[g] else {};
    }
  }

  /** The largest bucket is the largest group. */
  lemma LargestIsMost<K(!new), V>(buckets: map<K, set<V>>, pairs: seq<(K, V)>, most: nat)
    requires Buckets(buckets, pairs) && (forall k :: k in buckets ==> |buckets[k]| <= most)
    requires most > 0 ==> exists k :: k in buckets && |buckets[k]| == most
    ensures most == MostDistinct(pairs)
  {
    if most > 0 {
      var k :| k in buckets && |buckets[k]| == most;
      assert Members(pairs, k) == if k in buckets then buckets[k] else {};
      MostBounds(pairs, k);
    }
    if pairs != [] {
      var group := MostReached(pairs);
      BucketsAt(buckets, pairs, group, most);
    }
  }

  lemma BucketsAt<K(!new), V>(buckets: map<K, set<V>>, pairs: seq<(K, V)>, group: K, most: nat)
    requires Buckets(buckets, pairs) && (forall k :: k in buckets ==> |buckets[k]| <= most)
    ensures |Members(pairs, group)| <= most
  {
    assert Members(pairs, group) == if group in buckets then buckets[group] else {};
  }

  /** Groups members in a dictionary of sets and takes the largest. */
  method MaxDistinct<K(==, !new), V(==)>(pairs: seq<(K, V)>) returns (most: nat)
    ensures most == MostDistinct(pairs)
  {
    var buckets: map<K, set<V>> := map[];
    for i := 0 to |pairs|
      invariant Buckets(buckets, pairs[..i])
    {
      BucketsExtend(buckets, pairs, i);
      var (k, v) := pairs[i];
      buckets := buckets[k := (if k in buckets then buckets[k] else {}) + {v}];
    }
    assert pairs[..|pairs|] == pairs;
    most := Largest(buckets);
    LargestIsMost(buckets, pairs, most);
  }

  method Largest<K, V>(buckets: map<K, set<V>>) returns (most: nat)
    ensures forall k :: k in buckets ==> |buckets[k]| <= most
    ensures most > 0 ==> exists k :: k in buckets && |buckets[k]| == most
  {
    most := 0;
    var left := buckets.Keys;
    while left != {}
      invariant left <= buckets.Keys
      invariant forall k :: k in buckets && k !in left ==> |buckets[k]| <= most
      invariant most > 0 ==> exists k :: k in buckets && |buckets[k]| == most
    {
      var k :| k in left;
      most := Max(most, |buckets[k]|);
      left := left - {k};
    }
  }

  // -------------------------------------------------------------- scans and failures

  function HostThenPort(events: seq<Start>): seq<(Addr, Option<nat>)> {
    seq(|events|, i requires 0 <= i < |events| => (events[i].dest, events[i].port))
  }

  function PortThenHost(events: seq<Start>): seq<(Option<nat>, Addr)> {
    seq(|events|, i requires 0 <= i < |events| => (events[i].port, events[i].dest))
  }

  /** How many connections have completed, and how many of those failed. */
  ghost function Completed(events: seq<Start>): nat {
    if events == [] then 0
    else Completed(events[..|events| - 1]) + if events[|events| - 1].outcome.Some? then 1 else 0
  }

  ghost function Failures(events: seq<Start>): nat {
    if events == [] then 0
    else
      var last := events[|events| - 1];
      Failures(events[..|events| - 1]) + if last.outcome.Some? && last.outcome.value.failed then 1 else 0
  }

  ghost function FailedRatio(c: Config, events: seq<Start>): Option<real> {
    if Completed(events) < c.minStarts || Completed(events) == 0 then None
    else Some(Failures(events) as real / Completed(events) as real)
  }

  // ------------------------------------------------------------------- brute force

  type Service = (Addr, nat)

  /** A short completed exchange with a guessable service. */
  predicate Eligible(c: Config, e: Start) {
    && e.port.Some? && e.port.value in c.brutePorts
    && e.outcome.Some? && e.outcome.value.duration <= c.maxDuration && !e.outcome.value.failed
  }

  function ServiceOf(e: Start): Service
    requires e.port.Some?
  {
    (e.dest, e.port.value)
  }

  ghost function SizesOf(c: Config, events: seq<Start>, service: Service): seq<nat> {
    if events == [] then []
    else
      var last := events[|events| - 1];
      SizesOf(c, events[..|events| - 1], service)
      + if Eligible(c, last) && ServiceOf(last) == service then [last.outcome.value.bytes] else []
  }

  predicate Near(c: Config, size: nat, centre: real) {
    var gap := if size as real >= centre then size as real - centre else centre - size as real;
    gap <= c.tolerance * (if centre >= 1.0 then centre else 1.0)
  }

  ghost function Similar(c: Config, sizes: seq<nat>, centre: real): nat {
    if sizes == [] then 0
    else Similar(c, sizes[..|sizes| - 1], centre) + if Near(c, sizes[|sizes| - 1], centre) then 1 else 0
  }

  ghost function SimilarTo(c: Config, events: seq<Start>, service: Service): nat {
    var sizes := SizesOf(c, events, service);
    Similar(c, sizes, c.median(sizes))
  }

  /** The most exchanges of similar size with any service among the first `n` connections. */
  ghost function BruteUpTo(c: Config, events: seq<Start>, n: nat): nat
    requires n <= |events|
  {
    if n == 0 then 0
    else
      Max(BruteUpTo(c, events, n - 1),
          if Eligible(c, events[n - 1]) then SimilarTo(c, events, ServiceOf(events[n - 1])) else 0)
  }

  ghost function BruteForce(c: Config, events: seq<Start>): nat {
    BruteUpTo(c, events, |events|)
  }

  // ---------------------------------------------------------------------- measures

  /** Every per-device detector over one window. */
  datatype Measures = Measures(vertical: nat, horizontal: nat, failed: Option<real>, brute: nat)

  ghost function Measure(c: Config, events: seq<Start>): Measures {
    Measures(MostDistinct(HostThenPort(events)), MostDistinct(PortThenHost(events)), FailedRatio(c, events),
             BruteForce(c, events))
  }

  method Outcomes(events: seq<Start>) returns (completed: nat, failed: nat)
    ensures completed == Completed(events) && failed == Failures(events)
  {
    completed, failed := 0, 0;
    for i := 0 to |events|
      invariant completed == Completed(events[..i]) && failed == Failures(events[..i])
    {
      assert events[..i + 1][..i] == events[..i];
      if events[i].outcome.Some? {
        completed := completed + 1;
        if events[i].outcome.value.failed {
          failed := failed + 1;
        }
      }
    }
    assert events[..|events|] == events;
  }

  /** The dictionary holds the sizes of every service with eligible exchanges. */
  ghost predicate Grouped(c: Config, groups: map<Service, seq<nat>>, events: seq<Start>) {
    forall service :: SizesOf(c, events, service) == if service in groups then groups[service] else []
  }

  lemma GroupedExtends(c: Config, groups: map<Service, seq<nat>>, events: seq<Start>, i: nat)
    requires i < |events| && Grouped(c, groups, events[..i])
    ensures Grouped(c, Regrouped(c, groups, events[i]), events[..i + 1])
  {
    var after := Regrouped(c, groups, events[i]);
    forall service ensures SizesOf(c, events[..i + 1], service) == if service in after then after[service] else [] {
      assert events[..i + 1][..i] == events[..i];
      assert SizesOf(c, events[..i], service) == if service in groups then groups[service] else [];
    }
  }

  /** The dictionary after one more start. */
  ghost function Regrouped(c: Config, groups: map<Service, seq<nat>>, e: Start): map<Service, seq<nat>> {
    if Eligible(c, e) then Add(groups, ServiceOf(e), e.outcome.value.bytes) else groups
  }

  function Add(groups: map<Service, seq<nat>>, service: Service, size: nat): map<Service, seq<nat>> {
    groups[service := (if service in groups then groups[service] else []) + [size]]
  }

  lemma {:induction false} BruteBounds(c: Config, events: seq<Start>, n: nat, i: nat)
    requires i < n <= |events| && Eligible(c, events[i])
    ensures SimilarTo(c, events, ServiceOf(events[i])) <= BruteUpTo(c, events, n)
  {
    if i < n - 1 {
      BruteBounds(c, events, n - 1, i);
    }
  }

  lemma {:induction false} BruteReached(c: Config, events: seq<Start>, n: nat) returns (i: nat)
    requires n <= |events| && BruteUpTo(c, events, n) > 0
    ensures i < n && Eligible(c, events[i]) && SimilarTo(c, events, ServiceOf(events[i])) == BruteUpTo(c, events, n)
  {
    if BruteUpTo(c, events, n) == BruteUpTo(c, events, n - 1) {
      i := BruteReached(c, events, n - 1);
    } else {
      i := n - 1;
    }
  }

  lemma {:induction false} SizesFromEvent(c: Config, events: seq<Start>, service: Service) returns (i: nat)
    requires SizesOf(c, events, service) != []
    ensures i < |events| && Eligible(c, events[i]) && ServiceOf(events[i]) == service
  {
    var last := |events| - 1;
    if Eligible(c, events[last]) && ServiceOf(events[last]) == service {
      i := last;
    } else {
      i := SizesFromEvent(c, events[..last], service);
    }
  }

  method CountNear(c: Config, sizes: seq<nat>, centre: real) returns (count: nat)
    ensures count == Similar(c, sizes, centre)
  {
    count := 0;
    for i := 0 to |sizes|
      invariant count == Similar(c, sizes[..i], centre)
    {
      assert sizes[..i + 1][..i] == sizes[..i];
      if Near(c, sizes[i], centre) {
        count := count + 1;
      }
    }
    assert sizes[..|sizes|] == sizes;
  }

  /** The best group of the dictionary. */
  ghost predicate IsBest(c: Config, groups: map<Service, seq<nat>>, best: nat) {
    && (forall s :: s in groups ==> Similar(c, groups[s], c.median(groups[s])) <= best)
    && (best > 0 ==> exists s :: s in groups && Similar(c, groups[s], c.median(groups[s])) == best)
  }

  lemma BestIsBrute(c: Config, groups: map<Service, seq<nat>>, events: seq<Start>, best: nat)
    requires Grouped(c, groups, events) && IsBest(c, groups, best)
    ensures best == BruteForce(c, events)
  {
    if best > 0 {
      var s :| s in groups && Similar(c, groups[s], c.median(groups[s])) == best;
      assert SizesOf(c, events, s) == groups[s];
      var i := SizesFromEvent(c, events, s);
      BruteBounds(c, events, |events|, i);
    }
    if BruteForce(c, events) > 0 {
      var i := BruteReached(c, events, |events|);
      var s := ServiceOf(events[i]);
      assert SizesOf(c, events, s) == if s in groups then groups[s] else [];
    }
  }

  method FindBest(c: Config, groups: map<Service, seq<nat>>) returns (best: nat)
    ensures IsBest(c, groups, best)
  {
    best := 0;
    var left := groups.Keys;
    while left != {}
      invariant left <= groups.Keys
      invariant forall s :: s in groups && s !in left ==> Similar(c, groups[s], c.median(groups[s])) <= best
      invariant best > 0 ==> exists s :: s in groups && Similar(c, groups[s], c.median(groups[s])) == best
    {
      var s :| s in left;
      var count := CountNear(c, groups[s], c.median(groups[s]));
      best := Max(best, count);
      left := left - {s};
    }
  }

  method MostSimilar(c: Config, events: seq<Start>) returns (best: nat)
    ensures best == BruteForce(c, events)
  {
    var groups: map<Service, seq<nat>> := map[];
    for i := 0 to |events|
      invariant Grouped(c, groups, events[..i])
    {
      GroupedExtends(c, groups, events, i);
      if Eligible(c, events[i]) {
        groups := Add(groups, ServiceOf(events[i]), events[i].outcome.value.bytes);
      }
    }
    assert events[..|events|] == events;
    best := FindBest(c, groups);
    BestIsBrute(c, groups, events, best);
  }

  /** Every detector over one window's events. */
  method MeasureEvents(c: Config, events: seq<Start>) returns (m: Measures)
    ensures m == Measure(c, events)
  {
    var vertical := MaxDistinct(HostThenPort(events));
    var horizontal := MaxDistinct(PortThenHost(events));
    var completed, failed := Outcomes(events);
    var ratio := if completed < c.minStarts || completed == 0 then None else Some(failed as real / completed as real);
    var brute := MostSimilar(c, events);
    m := Measures(vertical, horizontal, ratio, brute);
  }

  /** Concurrent slow connections per destination, and when they were seen. */
  type SlowClusters = map<Addr, (nat, int)>

  /** The most concurrent slow connections to any destination seen inside the window. */
  ghost predicate IsSlowest(slow: SlowClusters, since: int, now: int, n: nat) {
    && (forall d :: d in slow && since <= slow[d].1 <= now ==> slow[d].0 <= n)
    && (n > 0 ==> exists d :: d in slow && since <= slow[d].1 <= now && slow[d].0 == n)
  }

  method SlowRate(slow: SlowClusters, since: int, now: int) returns (n: nat)
    ensures IsSlowest(slow, since, now, n)
  {
    n := 0;
    var left := slow.Keys;
    while left != {}
      invariant left <= slow.Keys
      invariant forall d :: d in slow && d !in left && since <= slow[d].1 <= now ==> slow[d].0 <= n
      invariant n > 0 ==> exists d :: d in slow && since <= slow[d].1 <= now && slow[d].0 == n
    {
      var d :| d in left;
      if since <= slow[d].1 <= now {
        n := Max(n, slow[d].0);
      }
      left := left - {d};
    }
  }

  method SlowRates(slow: SlowClusters, windows: seq<nat>, now: int) returns (rates: seq<nat>)
    ensures |rates| == |windows|
    ensures forall i :: 0 <= i < |windows| ==> IsSlowest(slow, now - windows[i], now, rates[i])
  {
    rates := [];
    for i := 0 to |windows|
      invariant |rates| == i && forall j :: 0 <= j < i ==> IsSlowest(slow, now - windows[j], now, rates[j])
    {
      var n := SlowRate(slow, now - windows[i], now);
      rates := rates + [n];
    }
  }

  /**
   Measures every window of one device; one that is not tracked has no values. Pruning never shows: while
   nothing overflowed and measurement times did not go back, each value is the one over everything the device
   ever did.
   */
  method MeasureDevice(device: SightingQueue?<Start>, slow: SlowClusters, c: Config, windows: seq<nat>, now: int)
    returns (values: seq<Measures>, rates: seq<nat>)
    requires device != null ==> device.Valid() && forall i :: 0 <= i < |windows| ==> windows[i] <= device.horizon
    modifies device
    ensures device == null ==> values == [] && rates == []
    ensures device != null ==>
      && device.Valid() && |values| == |rates| == |windows| && device.history == old(device.history)
      && device.steady == (old(device.steady) && (old(device.measured).None? || old(device.measured).value <= now))
      && (forall i :: 0 <= i < |windows| ==> IsSlowest(slow, now - windows[i], now, rates[i]))
      && (device.Whole() ==>
            forall i :: 0 <= i < |windows| ==> values[i] == Measure(c, Within(device.history, now - windows[i], now)))
  {
    values, rates := [], [];
    if device != null {
      device.Prune(now);
      values := MeasureWindows(device.queue, c, windows, now);
      rates := SlowRates(slow, windows, now);
    }
  }

  method MeasureWindows(
    queue: seq<Timed<Start>>, c: Config, windows: seq<nat>, now: int) returns (values: seq<Measures>)
    ensures |values| == |windows|
    ensures forall i :: 0 <= i < |windows| ==> values[i] == Measure(c, Within(queue, now - windows[i], now))
  {
    values := [];
    for i := 0 to |windows|
      invariant |values| == i
      invariant forall j :: 0 <= j < i ==> values[j] == Measure(c, Within(queue, now - windows[j], now))
    {
      var m := MeasureEvents(c, Within(queue, now - windows[i], now));
      values := values + [m];
    }
  }

  /** Fan-in toward one destination per window: distinct devices; one that is not tracked has no values. */
  method MeasureDestination(arrivals: SightingQueue?<Mac>, windows: seq<nat>, now: int) returns (values: seq<nat>)
    requires arrivals != null ==> arrivals.Valid() && forall i :: 0 <= i < |windows| ==> windows[i] <= arrivals.horizon
    modifies arrivals
    ensures arrivals == null ==> values == []
    ensures arrivals != null ==>
      && arrivals.Valid() && |values| == |windows| && arrivals.history == old(arrivals.history)
      && arrivals.steady == (old(arrivals.steady)
                             && (old(arrivals.measured).None? || old(arrivals.measured).value <= now))
      && (arrivals.Whole() ==> forall i :: 0 <= i < |windows| ==>
            values[i] == |Devices(Within(arrivals.history, now - windows[i], now))|)
  {
    values := [];
    if arrivals != null {
      arrivals.Prune(now);
      values := FanIn(arrivals.queue, windows, now);
    }
  }

  method FanIn(arrivals: seq<Timed<Mac>>, windows: seq<nat>, now: int) returns (values: seq<nat>)
    ensures |values| == |windows|
    ensures forall i :: 0 <= i < |windows| ==> values[i] == |Devices(Within(arrivals, now - windows[i], now))|
  {
    values := [];
    for i := 0 to |windows|
      invariant |values| == i
      invariant forall j :: 0 <= j < i ==> values[j] == |Devices(Within(arrivals, now - windows[j], now))|
    {
      values := values + [|Devices(Within(arrivals, now - windows[i], now))|];
    }
  }

  lemma {:induction false} OutcomesConcat(a: seq<Start>, b: seq<Start>)
    ensures Completed(a + b) == Completed(a) + Completed(b) && Failures(a + b) == Failures(a) + Failures(b)
  {
    if b == [] {
      assert a + b == a;
    } else {
      assert (a + b)[..|a + b| - 1] == a + b[..|b| - 1];
      OutcomesConcat(a, b[..|b| - 1]);
    }
  }

  lemma {:induction false} SizesConcat(c: Config, a: seq<Start>, b: seq<Start>, service: Service)
    ensures SizesOf(c, a + b, service) == SizesOf(c, a, service) + SizesOf(c, b, service)
  {
    if b == [] {
      assert a + b == a;
    } else {
      assert (a + b)[..|a + b| - 1] == a + b[..|b| - 1];
      SizesConcat(c, a, b[..|b| - 1], service);
    }
  }

  lemma {:induction false} EligibleHasSize(c: Config, events: seq<Start>, i: nat)
    requires i < |events| && Eligible(c, events[i])
    ensures SizesOf(c, events, ServiceOf(events[i])) != []
  {
    if i < |events| - 1 {
      EligibleHasSize(c, events[..|events| - 1], i);
    }
  }

  lemma BruteAtMost(c: Config, x: seq<Start>, y: seq<Start>)
    requires forall s :: SizesOf(c, x, s) == SizesOf(c, y, s)
    ensures BruteForce(c, x) <= BruteForce(c, y)
  {
    if BruteForce(c, x) > 0 {
      var i := BruteReached(c, x, |x|);
      var s := ServiceOf(x[i]);
      EligibleHasSize(c, x, i);
      assert SizesOf(c, x, s) == SizesOf(c, y, s);
      var j := SizesFromEvent(c, y, s);
      BruteBounds(c, y, |y|, j);
    }
  }

  /** A start without an outcome is no brute-force evidence and no completed handshake. */
  lemma SignalHasNoOutcome(c: Config, a: seq<Start>, signal: Start, b: seq<Start>)
    requires signal.outcome.None?
    ensures Completed(a + [signal] + b) == Completed(a + b) && Failures(a + [signal] + b) == Failures(a + b)
    ensures BruteForce(c, a + [signal] + b) == BruteForce(c, a + b)
  {
    OutcomesConcat(a + [signal], b);
    OutcomesConcat(a, [signal]);
    OutcomesConcat(a, b);
    assert Completed([signal]) == 0 && Failures([signal]) == 0;
    forall s ensures SizesOf(c, a + [signal] + b, s) == SizesOf(c, a + b, s) {
      SizesConcat(c, a + [signal], b, s);
      SizesConcat(c, a, [signal], s);
      SizesConcat(c, a, b, s);
      assert SizesOf(c, [signal], s) == [];
      assert SizesOf(c, a, s) + [] == SizesOf(c, a, s);
    }
    BruteAtMost(c, a + [signal] + b, a + b);
    BruteAtMost(c, a + b, a + [signal] + b);
  }

  /** A creation-time signal changes no measure if its start is recorded, be it before or after the signal. */
  lemma SignalChangesNoMeasure(c: Config, a: seq<Start>, signal: Start, b: seq<Start>, i: nat)
    requires signal.outcome.None? && i < |a + b| && (a + b)[i].dest == signal.dest && (a + b)[i].port == signal.port
    ensures Measure(c, a + [signal] + b) == Measure(c, a + b)
  {
    SignalHasNoOutcome(c, a, signal, b);
    var all, without := a + [signal] + b, a + b;
    assert HostThenPort(all) == HostThenPort(a) + [(signal.dest, signal.port)] + HostThenPort(b);
    assert HostThenPort(without) == HostThenPort(a) + HostThenPort(b);
    assert HostThenPort(without)[i] == (signal.dest, signal.port);
    RepeatedPair(HostThenPort(a), (signal.dest, signal.port), HostThenPort(b));
    assert PortThenHost(all) == PortThenHost(a) + [(signal.port, signal.dest)] + PortThenHost(b);
    assert PortThenHost(without) == PortThenHost(a) + PortThenHost(b);
    assert PortThenHost(without)[i] == (signal.port, signal.dest);
    RepeatedPair(PortThenHost(a), (signal.port, signal.dest), PortThenHost(b));
  }

  lemma WithinAround<E>(a: seq<Timed<E>>, e: Timed<E>, b: seq<Timed<E>>, since: int, now: int)
    ensures Within(a + [e] + b, since, now)
         == Within(a, since, now) + (if since <= e.at <= now then [e.item] else []) + Within(b, since, now)
    ensures Within(a + b, since, now) == Within(a, since, now) + Within(b, since, now)
  {
    WithinConcat(a + [e], b, since, now);
    WithinConcat(a, [e], since, now);
    WithinConcat(a, b, since, now);
    assert Within([e], since, now) == if since <= e.at <= now then [e.item] else [];
  }

  /**
   Over every window, a creation-time signal for a start recorded with the same time, destination and port
   changes no value: not the signal that precedes its record, nor one that comes after it.
   */
  lemma SignalChangesNothing(
    c: Config, a: seq<Timed<Start>>, signal: Timed<Start>, b: seq<Timed<Start>>, i: nat, since: int, now: int)
    requires signal.item.outcome.None? && i < |a + b| && (a + b)[i].at == signal.at
    requires (a + b)[i].item.dest == signal.item.dest && (a + b)[i].item.port == signal.item.port
    ensures Measure(c, Within(a + [signal] + b, since, now)) == Measure(c, Within(a + b, since, now))
  {
    WithinAround(a, signal, b, since, now);
    var before, after := Within(a, since, now), Within(b, since, now);
    if since <= signal.at <= now {
      var j := Position(a + b, i, since, now);
      SignalChangesNoMeasure(c, before, signal.item, after, j);
    } else {
      assert before + [] == before;
    }
  }

  lemma {:induction false} Position<E>(history: seq<Timed<E>>, i: nat, since: int, now: int) returns (j: nat)
    requires i < |history| && since <= history[i].at <= now
    ensures j < |Within(history, since, now)| && Within(history, since, now)[j] == history[i].item
  {
    if i == 0 {
      j := 0;
    } else {
      var k := Position(history[1..], i - 1, since, now);
      j := if since <= history[0].at <= now then k + 1 else k;
      assert history[1..][i - 1] == history[i];
    }
  }

  /** Fan-in: the distinct devices that opened connections to a destination. */
  function Devices(macs: seq<Mac>): set<Mac> {
    set m | m in macs
  }

  /** Nor any fan-in value: the same device at the same time, wherever it stands. */
  lemma FanInIgnoresRepeat(a: seq<Timed<Mac>>, repeated: Timed<Mac>, b: seq<Timed<Mac>>, i: nat, since: int, now: int)
    requires i < |a + b| && (a + b)[i] == repeated
    ensures Devices(Within(a + [repeated] + b, since, now)) == Devices(Within(a + b, since, now))
  {
    WithinAround(a, repeated, b, since, now);
    if since <= repeated.at <= now {
      var j := Position(a + b, i, since, now);
    } else {
      assert Within(a, since, now) + [] == Within(a, since, now);
    }
  }
}
