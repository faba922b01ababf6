/** Failures inside a sliding window, and what a bounded queue of the newest ones tells about them. */
module Windows {
  import opened Prelude

  const SECOND := 1_000_000

  /** How many times lie after the cutoff. */
  ghost function CountAfter(times: seq<int>, cutoff: int): nat {
    if times == [] then 0 else (if times[0] > cutoff then 1 else 0) + CountAfter(times[1..], cutoff)
  }

  ghost predicate Ascending(times: seq<int>) {
    forall i, j :: 0 <= i < j < |times| ==> times[i] <= times[j]
  }

  lemma {:induction false} CountConcat(a: seq<int>, b: seq<int>, cutoff: int)
    ensures CountAfter(a + b, cutoff) == CountAfter(a, cutoff) + CountAfter(b, cutoff)
  {
    if a == [] {
      assert a + b == b;
    } else {
      assert (a + b)[1..] == a[1..] + b;
      CountConcat(a[1..], b, cutoff);
    }
  }

  lemma {:induction false} CountAll(a: seq<int>, cutoff: int)
    ensures (forall i :: 0 <= i < |a| ==> a[i] > cutoff) ==> CountAfter(a, cutoff) == |a|
    ensures (forall i :: 0 <= i < |a| ==> a[i] <= cutoff) ==> CountAfter(a, cutoff) == 0
    ensures CountAfter(a, cutoff) <= |a|
  {
    if a != [] {
      CountAll(a[1..], cutoff);
    }
  }

  /** The queue holds the newest failures of the history: `max` of them, or all that are after the horizon. */
  ghost predicate Tracks(queue: seq<int>, history: seq<int>, max: nat, horizon: int) {
    && |queue| <= Min(max, |history|)
    && queue == history[|history| - |queue|..]
    && (|queue| < max ==> forall i :: 0 <= i < |history| - |queue| ==> history[i] <= horizon)
  }

  /** A queue with nothing stale in it is full exactly when the window holds `max` failures. */
  lemma QueueDecides(queue: seq<int>, history: seq<int>, max: nat, cutoff: int)
    requires Tracks(queue, history, max, cutoff) && forall i :: 0 <= i < |queue| ==> queue[i] > cutoff
    ensures CountAfter(history, cutoff) >= max <==> |queue| >= max
    ensures |queue| < max ==> CountAfter(history, cutoff) == |queue|
  {
    var older := history[..|history| - |queue|];
    assert history == older + queue;
    CountConcat(older, queue, cutoff);
    CountAll(older, cutoff);
    CountAll(queue, cutoff);
  }

  /** Dropping what the later cutoff makes stale keeps track. */
  lemma Trimmed(queue: seq<int>, history: seq<int>, max: nat, horizon: int, k: nat, cutoff: int)
    requires Tracks(queue, history, max, horizon) && Ascending(history) && horizon <= cutoff
    requires k <= |queue| && forall i :: 0 <= i < k ==> queue[i] <= cutoff
    ensures Tracks(queue[k..], history, max, cutoff)
  {
    var n := |history| - |queue|;
    if |queue| - k < max {
      forall i | 0 <= i < n + k ensures history[i] <= cutoff {
        if i >= n {
          assert history[i] == queue[i - n];
        } else if k > 0 {
          assert history[n] == queue[0];
        }
      }
    }
  }

  /** `append` on a queue of at most `max` entries. */
  function Push(queue: seq<int>, max: nat, now: int): seq<int>
    requires max >= 1
  {
    if |queue| >= max then queue[1..] + [now] else queue + [now]
  }

  lemma Pushed(queue: seq<int>, history: seq<int>, max: nat, horizon: int, now: int)
    requires max >= 1 && Tracks(queue, history, max, horizon)
    ensures Tracks(Push(queue, max, now), history + [now], max, horizon)
  {
    var after := history + [now];
    if |queue| < max {
      assert forall i :: 0 <= i < |history| - |queue| ==> after[i] == history[i];
    }
  }

  /** Drops the entries at the front that are at or before the cutoff. */
  method TrimFront(queue: seq<int>, cutoff: int) returns (rest: seq<int>, ghost k: nat)
    ensures k <= |queue| && rest == queue[k..] && (forall i :: 0 <= i < k ==> queue[i] <= cutoff)
    ensures rest != [] ==> rest[0] > cutoff
  {
    rest, k := queue, 0;
    while rest != [] && rest[0] <= cutoff
      invariant k <= |queue| && rest == queue[k..] && forall i :: 0 <= i < k ==> queue[i] <= cutoff
      decreases |rest|
    {
      rest, k := rest[1..], k + 1;
    }
  }

  /** Whole seconds, rounded up. */
  function CeilSeconds(us: int): int {
    (us + SECOND - 1) / SECOND
  }

  lemma CeilIsLeast(us: int)
    ensures SECOND * CeilSeconds(us) >= us > SECOND * (CeilSeconds(us) - 1)
  {
  }

  /** Whether `max` failures lie inside the window that ends at `now`. */
  ghost predicate Locked(history: seq<int>, max: nat, window: int, now: int) {
    CountAfter(history, now - window) >= max
  }

  /** Whether the key is still locked `wait` seconds from now, absent new failures. */
  ghost predicate LockedAfter(history: seq<int>, max: nat, window: int, now: int, wait: nat) {
    Locked(history, max, window, now + SECOND * wait)
  }

  /** The least whole number of seconds after which the key unlocks. */
  ghost predicate LeastWait(history: seq<int>, max: nat, window: int, now: int, wait: nat) {
    && !LockedAfter(history, max, window, now, wait)
    && (forall v: nat :: v < wait ==> LockedAfter(history, max, window, now, v))
  }

  /** A full queue unlocks when its oldest entry leaves the window. */
  lemma WaitIsLeast(queue: seq<int>, history: seq<int>, max: nat, window: int, now: int)
    requires max >= 1 && |queue| == max && Ascending(history) && Tracks(queue, history, max, now - window)
    requires queue[0] > now - window
    ensures
      var wait := CeilSeconds(queue[0] + window - now);
      wait >= 1 && LeastWait(history, max, window, now, wait)
  {
    var wait := CeilSeconds(queue[0] + window - now);
    CeilIsLeast(queue[0] + window - now);
    var n := |history| - max;
    assert forall i :: 0 <= i < max ==> queue[i] == history[n + i];
    forall t | now <= t ensures Locked(history, max, window, t) <==> t < queue[0] + window {
      UnlocksWithOldest(queue, history, max, t - window);
    }
  }

  lemma UnlocksWithOldest(queue: seq<int>, history: seq<int>, max: nat, cutoff: int)
    requires max >= 1 && |queue| == max <= |history| && Ascending(history) && queue == history[|history| - max..]
    ensures CountAfter(history, cutoff) >= max <==> cutoff < queue[0]
  {
    var n := |history| - max;
    assert history == history[..n] + queue;
    SuffixBounds(history, n);
    OldestDecides(history[..n], queue, cutoff);
  }

  lemma OldestDecides(older: seq<int>, queue: seq<int>, cutoff: int)
    requires queue != [] && (forall i :: 0 <= i < |older| ==> older[i] <= queue[0])
    requires forall i :: 0 <= i < |queue| ==> queue[0] <= queue[i]
    ensures CountAfter(older + queue, cutoff) >= |queue| <==> cutoff < queue[0]
  {
    CountConcat(older, queue, cutoff);
    CountAll(older, cutoff);
    if cutoff < queue[0] {
      CountAll(queue, cutoff);
    } else {
      CountAll(queue[1..], cutoff);
    }
  }

  lemma SuffixBounds(history: seq<int>, n: nat)
    requires Ascending(history) && n < |history|
    ensures forall i :: 0 <= i < n ==> history[..n][i] <= history[n..][0]
    ensures forall i :: 0 <= i < |history[n..]| ==> history[n..][0] <= history[n..][i]
  {
  }
}

/** The login throttle: a bounded table of failure queues. */
module Throttle {
  import opened Prelude
  import opened Windows

  function Get<K>(m: map<K, seq<int>>, key: K): seq<int> {
    if key in m then m[key] else []
  }

  /** The queue of one key is right about its history, up to the clock. */
  ghost predicate Faithful(queue: seq<int>, history: seq<int>, max: nat, window: int, clock: int) {
    && Ascending(history) && (forall i :: 0 <= i < |history| ==> history[i] <= clock)
    && Tracks(queue, history, max, clock - window)
  }

  lemma Waiting(queue: seq<int>, history: seq<int>, max: nat, window: int, clock: int, now: int)
    requires Faithful(queue, history, max, window, clock) && clock <= now
    ensures Faithful(queue, history, max, window, now)
  {
  }

  /** What a query of one key leaves of its queue. */
  lemma Queried(queue: seq<int>, history: seq<int>, max: nat, window: int, clock: int, now: int, k: nat)
    requires Faithful(queue, history, max, window, clock) && clock <= now && k <= |queue|
    requires (forall i :: 0 <= i < k ==> queue[i] <= now - window) && (k < |queue| ==> queue[k] > now - window)
    ensures Faithful(queue[k..], history, max, window, now)
    ensures |queue[k..]| >= max <==> Locked(history, max, window, now)
  {
    var rest := queue[k..];
    Trimmed(queue, history, max, clock - window, k, now - window);
    var n := |history| - |rest|;
    forall i | 0 <= i < |rest| ensures rest[i] > now - window {
      assert rest[i] == history[n + i] && rest[0] == history[n];
    }
    QueueDecides(rest, history, max, now - window);
  }

  lemma Appended(queue: seq<int>, history: seq<int>, max: nat, window: int, now: int)
    requires max >= 1 && Faithful(queue, history, max, window, now)
    ensures Faithful(Push(queue, max, now), history + [now], max, window, now)
  {
    Pushed(queue, history, max, now - window, now);
  }

  type Table<K> = map<K, seq<int>>

  /** Every queue of the table is right about the history of its key. */
  ghost predicate AllFaithful<K(!new)>(failures: Table<K>, history: Table<K>, max: nat, window: int, clock: int) {
    forall key :: Faithful(Get(failures, key), Get(history, key), max, window, clock)
  }

  /** The table with the key's queue replaced, an empty queue not being stored. */
  function Put<K>(failures: Table<K>, key: K, queue: seq<int>): Table<K> {
    if queue == [] then failures - {key} else failures[key := queue]
  }

  lemma PutFaithful<K(!new)>(failures: Table<K>, history: Table<K>, max: nat, window: int, clock: int, now: int, key: K,
                             failures': Table<K>, history': Table<K>)
    requires AllFaithful(failures, history, max, window, clock) && clock <= now
    requires Faithful(Get(failures', key), Get(history', key), max, window, now)
    requires failures' - {key} == failures - {key} && history' - {key} == history - {key}
    ensures AllFaithful(failures', history', max, window, now)
  {
    forall k ensures Faithful(Get(failures', k), Get(history', k), max, window, now) {
      if k != key {
        SameElsewhere(failures, failures', key, k);
        SameElsewhere(history, history', key, k);
        Waiting(Get(failures, k), Get(history, k), max, window, clock, now);
      }
    }
  }

  lemma SameElsewhere<K>(a: Table<K>, b: Table<K>, key: K, k: K)
    requires a - {key} == b - {key} && k != key
    ensures Get(a, k) == Get(b, k)
  {
    assert k in a <==> k in a - {key};
    assert k in b <==> k in b - {key};
    assert k in a ==> a[k] == (a - {key})[k];
    assert k in b ==> b[k] == (b - {key})[k];
  }

  lemma PutElsewhere<K>(m: Table<K>, key: K, value: seq<int>)
    ensures Put(m, key, value) - {key} == m - {key} && Get(Put(m, key, value), key) == value
  {
  }

  lemma QueryFaithful<K(!new)>(
    failures: Table<K>, history: Table<K>, max: nat, window: int, clock: int, now: int, key: K, k: nat)
    requires AllFaithful(failures, history, max, window, clock) && clock <= now && k <= |Get(failures, key)|
    requires forall i :: 0 <= i < k ==> Get(failures, key)[i] <= now - window
    requires k < |Get(failures, key)| ==> Get(failures, key)[k] > now - window
    ensures AllFaithful(Put(failures, key, Get(failures, key)[k..]), history, max, window, now)
    ensures |Get(failures, key)[k..]| >= max <==> Locked(Get(history, key), max, window, now)
  {
    var recent := Get(failures, key)[k..];
    Queried(Get(failures, key), Get(history, key), max, window, clock, now, k);
    PutElsewhere(failures, key, recent);
    PutFaithful(failures, history, max, window, clock, now, key, Put(failures, key, recent), history);
  }

  lemma SizeWithout<K>(m: map<K, seq<int>>, key: K)
    ensures |m - {key}| == |m| - if key in m then 1 else 0
  {
    assert (m - {key}).Keys == m.Keys - {key};
  }

  lemma SizeWith<K>(m: map<K, seq<int>>, key: K, value: seq<int>)
    ensures |m[key := value]| == |m| + if key in m then 0 else 1
  {
    assert m[key := value].Keys == m.Keys + {key};
  }

  ghost predicate QueuesWithin<K>(m: Table<K>, max: nat) {
    forall k :: k in m ==> 1 <= |m[k]| <= max
  }

  lemma PutSize<K>(m: Table<K>, key: K, value: seq<int>, max: nat)
    requires QueuesWithin(m, max) && |value| <= max
    ensures |Put(m, key, value)| == |m| - (if key in m then 1 else 0) + (if value == [] then 0 else 1)
    ensures QueuesWithin(Put(m, key, value), max)
  {
    SizeWithout(m, key);
    SizeWith(m, key, value);
  }

  class FailureWindow<K(==, !new)> {
    const maxFailures: nat
    const window: int
    const maxKeys: nat
    var failures: map<K, seq<int>>
    /** Every failure of each key since it was last cleared or evicted. */
    ghost var history: map<K, seq<int>>
    /** The latest time seen, and whether time never went back. */
    ghost var clock: int
    ghost var steady: bool

    /** The queues are never empty, and neither they nor the table outgrow their bounds. */
    ghost predicate Bounded()
      reads this
    {
      maxFailures >= 1 && maxKeys >= 1 && |failures| <= maxKeys && QueuesWithin(failures, maxFailures)
    }

    ghost predicate Valid()
      reads this
    {
      && Bounded()
      && (steady ==> AllFaithful(failures, history, maxFailures, window, clock))
    }

    /** At least `maxFailures` of the key's failures since its last clear or eviction lie in the window. */
    ghost predicate IsLocked(key: K, now: int)
      reads this
    {
      Locked(Get(history, key), maxFailures, window, now)
    }

    constructor (maxFailures: nat, windowSeconds: nat, maxKeys: nat, start: int)
      requires maxFailures >= 1 && maxKeys >= 1
      ensures Valid() && steady && clock == start && failures == map[] && history == map[]
      ensures this.maxFailures == maxFailures && window == SECOND * windowSeconds && this.maxKeys == maxKeys
    {
      this.maxFailures, window, this.maxKeys := maxFailures, SECOND * windowSeconds, maxKeys;
      failures, history, clock, steady := map[], map[], start, true;
    }

    /** The failures still inside the window; a key left with none is forgotten. */
    method Recent(key: K, now: int) returns (recent: seq<int>)
      requires Valid()
      modifies this
      ensures Valid() && history == old(history) && clock == now && steady == (old(steady) && old(clock) <= now)
      ensures recent == Get(failures, key) && |recent| <= maxFailures
      ensures failures == Put(old(failures), key, recent)
      ensures recent != [] ==> key in old(failures) && recent[0] > now - window
      ensures steady ==> (|recent| >= maxFailures <==> IsLocked(key, now))
    {
      ghost var k;
      recent, k := TrimFront(Get(failures, key), now - window);
      PutSize(failures, key, recent, maxFailures);
      ghost var still := steady && clock <= now;
      if still {
        QueryFaithful(failures, history, maxFailures, window, clock, now, key, k);
      }
      failures, steady, clock := Put(failures, key, recent), still, now;
    }

    method IsLockedOut(key: K, now: int) returns (locked: bool)
      requires Valid()
      modifies this
      ensures Valid() && history == old(history) && clock == now && steady == (old(steady) && old(clock) <= now)
      ensures failures == Put(old(failures), key, Get(failures, key))
      ensures Get(failures, key) != [] ==> key in old(failures)
      ensures steady ==> (locked <==> IsLocked(key, now))
    {
      var recent := Recent(key, now);
      locked := |recent| >= maxFailures;
    }

    /** Zero when not locked, else the least whole number of seconds after which the key unlocks. */
    method SecondsUntilUnlocked(key: K, now: int) returns (wait: nat)
      requires Valid()
      modifies this
      ensures Valid() && history == old(history) && clock == now && steady == (old(steady) && old(clock) <= now)
      ensures steady ==> LeastWait(Get(history, key), maxFailures, window, now, wait)
    {
      var recent := Recent(key, now);
      wait := 0;
      if |recent| >= maxFailures {
        wait := Max(1, CeilSeconds(recent[0] + window - now));
        if steady {
          WaitIsLeast(recent, Get(history, key), maxFailures, window, now);
        }
      }
    }

    /** A tracked key whose newest failure is oldest. */
    method Stalest() returns (stalest: K)
      requires failures != map[] && Bounded()
      ensures stalest in failures
      ensures forall k :: k in failures ==> Newest(failures[stalest]) <= Newest(failures[k])
    {
      var left := failures.Keys;
      stalest :| stalest in left;
      left := left - {stalest};
      while left != {}
        invariant left <= failures.Keys && stalest in failures
        invariant forall k :: k in failures && k !in left ==> Newest(failures[stalest]) <= Newest(failures[k])
      {
        var k :| k in left;
        if Newest(failures[k]) < Newest(failures[stalest]) {
          stalest := k;
        }
        left := left - {k};
      }
    }

    /** Makes room for a key the table does not hold. */
    method MakeRoom(key: K) returns (ghost evicted: Option<K>)
      requires Valid()
      modifies this`failures, this`history
      ensures Valid() && (key !in failures ==> |failures| < maxKeys)
      ensures evicted.None? ==> failures == old(failures) && history == old(history)
      ensures evicted.Some? ==>
        && key !in old(failures) && |old(failures)| == maxKeys && evicted.value in old(failures)
        && failures == old(failures) - {evicted.value} && history == old(history) - {evicted.value}
        && forall k :: k in old(failures) ==> Newest(old(failures)[evicted.value]) <= Newest(old(failures)[k])
    {
      evicted := None;
      if key !in failures && |failures| >= maxKeys {
        var stalest := Stalest();
        Clear(stalest);
        evicted := Some(stalest);
      }
    }

    /** Records one failure; true when it is the one that locks the key. */
    method RecordFailure(key: K, now: int) returns (newly: bool, ghost evicted: Option<K>)
      requires Valid()
      modifies this
      ensures Valid() && clock == now && steady == (old(steady) && old(clock) <= now)
      ensures evicted != Some(key)
      ensures
        var kept := if evicted.Some? then old(history) - {evicted.value} else old(history);
        history == kept[key := Get(old(history), key) + [now]]
      ensures steady ==> (newly <==> IsLocked(key, now) && !Locked(Get(old(history), key), maxFailures, window, now))
    {
      var wasLocked := IsLockedOut(key, now);
      evicted := MakeRoom(key);
      var queue := Push(Get(failures, key), maxFailures, now);
      Append(key, queue);
      var locked := IsLockedOut(key, now);
      newly := !wasLocked && locked;
    }

    method Append(key: K, queue: seq<int>)
      requires Valid() && queue == Push(Get(failures, key), maxFailures, clock)
      requires key !in failures ==> |failures| < maxKeys
      modifies this`failures, this`history
      ensures Valid() && failures == old(failures)[key := queue]
      ensures history == old(history)[key := Get(old(history), key) + [clock]]
    {
      ghost var times := Get(history, key) + [clock];
      if steady {
        Appended(Get(failures, key), Get(history, key), maxFailures, window, clock);
        PutElsewhere(failures, key, queue);
        PutElsewhere(history, key, times);
        PutFaithful(failures, history, maxFailures, window, clock, clock, key, failures[key := queue],
                    history[key := times]);
      }
      SizeWith(failures, key, queue);
      failures, history := failures[key := queue], history[key := times];
    }

    method Clear(key: K)
      requires Valid()
      modifies this`failures, this`history
      ensures Valid() && history == old(history) - {key} && failures == old(failures) - {key}
      ensures |failures| == |old(failures)| - if key in old(failures) then 1 else 0
    {
      SizeWithout(failures, key);
      if steady {
        PutElsewhere(failures, key, []);
        PutElsewhere(history, key, []);
        PutFaithful(failures, history, maxFailures, window, clock, clock, key, Put(failures, key, []),
                    Put(history, key, []));
      }
      failures, history := failures - {key}, history - {key};
    }
  }

  function Newest(queue: seq<int>): int {
    if queue == [] then 0 else queue[|queue| - 1]
  }

  // ---------------------------------------------------------------- several scopes

  datatype Scope = SourceScope | AccountScope | GlobalScope

  datatype Lockout = Lockout(scope: Scope, retryAfter: nat)

  /** The first longest wait, when any is positive. */
  ghost predicate IsWorst<K>(worst: Option<Lockout>, pairs: seq<(Scope, K)>, waits: seq<nat>)
    requires |waits| == |pairs|
  {
    match worst
    case None => forall i :: 0 <= i < |waits| ==> waits[i] == 0
    case Some(l) =>
      && l.retryAfter >= 1 && (forall i :: 0 <= i < |waits| ==> waits[i] <= l.retryAfter)
      && exists i :: 0 <= i < |waits| && waits[i] == l.retryAfter && pairs[i].0 == l.scope
           && forall j :: 0 <= j < i ==> waits[j] < l.retryAfter
  }

  lemma WorstExtends<K>(worst: Option<Lockout>, pairs: seq<(Scope, K)>, waits: seq<nat>, pair: (Scope, K), wait: nat)
    requires |waits| == |pairs| && IsWorst(worst, pairs, waits)
    ensures
      var longer := wait > 0 && (worst.None? || wait > worst.value.retryAfter);
      var worst' := if longer then Some(Lockout(pair.0, wait)) else worst;
      IsWorst(worst', pairs + [pair], waits + [wait])
  {
    var waits' := waits + [wait];
    if wait > 0 && (worst.None? || wait > worst.value.retryAfter) {
      assert waits'[|waits|] == wait && (pairs + [pair])[|waits|] == pair;
    } else if worst.Some? {
      var i :| 0 <= i < |waits| && waits[i] == worst.value.retryAfter && pairs[i].0 == worst.value.scope
               && forall j :: 0 <= j < i ==> waits[j] < worst.value.retryAfter;
      assert waits'[i] == waits[i] && (pairs + [pair])[i] == pairs[i];
    }
  }

  method Longest<K>(pairs: seq<(Scope, K)>, waits: seq<nat>) returns (worst: Option<Lockout>)
    requires |waits| == |pairs|
    ensures IsWorst(worst, pairs, waits)
  {
    worst := None;
    for i := 0 to |pairs|
      invariant IsWorst(worst, pairs[..i], waits[..i])
    {
      WorstExtends(worst, pairs[..i], waits[..i], pairs[i], waits[i]);
      assert pairs[..i + 1] == pairs[..i] + [pairs[i]] && waits[..i + 1] == waits[..i] + [waits[i]];
      if waits[i] > 0 && (worst.None? || waits[i] > worst.value.retryAfter) {
        worst := Some(Lockout(pairs[i].0, waits[i]));
      }
    }
    assert pairs[..|pairs|] == pairs && waits[..|pairs|] == waits;
  }

  lemma {:induction false} StaysUnlocked(times: seq<int>, earlier: int, later: int)
    requires earlier <= later
    ensures CountAfter(times, later) <= CountAfter(times, earlier)
  {
    if times != [] {
      StaysUnlocked(times[1..], earlier, later);
    }
  }

  /** One window per limited scope, all of one length. */
  class ScopedThrottle<K(==, !new)> {
    const windows: map<Scope, FailureWindow<K>>
    const globalKey: K

    ghost predicate Valid()
      reads windows.Values
    {
      && (forall s :: s in windows ==> windows[s].Valid())
      && (forall s, t :: s in windows && t in windows && s != t ==> windows[s] != windows[t])
    }

    constructor (windows: map<Scope, FailureWindow<K>>, globalKey: K)
      requires forall s :: s in windows ==> windows[s].Valid()
      requires forall s, t :: s in windows && t in windows && s != t ==> windows[s] != windows[t]
      ensures Valid() && this.windows == windows && this.globalKey == globalKey
    {
      this.windows, this.globalKey := windows, globalKey;
    }

    /** The scopes an attempt is counted in, with their keys: the limited ones given, then the global one. */
    function Pairs(keys: seq<(Scope, K)>): seq<(Scope, K)> {
      Limited(keys) + if GlobalScope in windows then [(GlobalScope, globalKey)] else []
    }

    function Limited(keys: seq<(Scope, K)>): (r: seq<(Scope, K)>)
      ensures forall i :: 0 <= i < |r| ==> r[i].0 in windows && r[i].0 != GlobalScope && r[i] in keys
    {
      if keys == [] then []
      else (if keys[0].0 in windows && keys[0].0 != GlobalScope then [keys[0]] else []) + Limited(keys[1..])
    }

    /** The failures of every scope since each key's last clear or eviction. */
    ghost function Histories(): (h: map<Scope, Table<K>>)
      reads windows.Values
      ensures h.Keys == windows.Keys
    {
      map s | s in windows :: windows[s].history
    }

    /** Whether this pair would still be refused after `wait` seconds, absent new failures. */
    ghost predicate Refused(h: map<Scope, Table<K>>, pair: (Scope, K), now: int, wait: nat)
      requires pair.0 in windows && h.Keys == windows.Keys
    {
      LockedAfter(Get(h[pair.0], pair.1), windows[pair.0].maxFailures, windows[pair.0].window, now, wait)
    }

    ghost predicate Waits(h: map<Scope, Table<K>>, pair: (Scope, K), now: int, wait: nat)
      requires pair.0 in windows && h.Keys == windows.Keys
    {
      LeastWait(Get(h[pair.0], pair.1), windows[pair.0].maxFailures, windows[pair.0].window, now, wait)
    }

    /** No window has seen a later time, nor time going back. */
    ghost predicate Steady(now: int)
      reads windows.Values
    {
      forall s :: s in windows ==> windows[s].steady && windows[s].clock <= now
    }

    /** The longest wait unlocks every scope, and no shorter one unlocks the scope it names. */
    ghost predicate Decides(h: map<Scope, Table<K>>, pairs: seq<(Scope, K)>, worst: Option<Lockout>, now: int)
      requires h.Keys == windows.Keys && forall i :: 0 <= i < |pairs| ==> pairs[i].0 in windows
    {
      match worst
      case None => forall i :: 0 <= i < |pairs| ==> !Refused(h, pairs[i], now, 0)
      case Some(l) =>
        && l.retryAfter >= 1
        && (forall i :: 0 <= i < |pairs| ==> !Refused(h, pairs[i], now, l.retryAfter))
        && exists i :: 0 <= i < |pairs| && pairs[i].0 == l.scope
             && forall v: nat :: v < l.retryAfter ==> Refused(h, pairs[i], now, v)
    }

    /** The histories of a throttle in a sound state; `steady` when time has not gone back so far. */
    ghost function Snapshot(now: int, steady: bool): (h: Option<map<Scope, Table<K>>>)
      reads windows.Values
      ensures h.Some? ==> h.value.Keys == windows.Keys
    {
      if Valid() && (steady ==> Steady(now)) then Some(Histories()) else None
    }

    /** The lockout refusing this attempt, the longest wait winning. */
    method FindLockout(keys: seq<(Scope, K)>, now: int) returns (worst: Option<Lockout>)
      requires Valid()
      modifies windows.Values
      ensures Valid() && Histories() == old(Histories())
      ensures old(Steady(now)) ==> Steady(now) && Decides(Histories(), Pairs(keys), worst, now)
    {
      worst := LongestWait(Pairs(keys), now, Histories(), Steady(now));
    }

    method LongestWait(
      pairs: seq<(Scope, K)>, now: int, ghost h: map<Scope, Table<K>>, ghost steady: bool)
      returns (worst: Option<Lockout>)
      requires h.Keys == windows.Keys && Snapshot(now, steady) == Some(h)
      requires forall i :: 0 <= i < |pairs| ==> pairs[i].0 in windows
      modifies windows.Values
      ensures Snapshot(now, steady) == Some(h) && (steady ==> Decides(h, pairs, worst, now))
    {
      var waits := QueryAll(pairs, now, h, steady);
      worst := Longest(pairs, waits);
      if steady {
        WorstDecides(h, pairs, waits, worst, now);
      }
    }

    method QueryAll(
      pairs: seq<(Scope, K)>, now: int, ghost h: map<Scope, Table<K>>, ghost steady: bool) returns (waits: seq<nat>)
      requires h.Keys == windows.Keys && Snapshot(now, steady) == Some(h)
      requires forall i :: 0 <= i < |pairs| ==> pairs[i].0 in windows
      modifies windows.Values
      ensures Snapshot(now, steady) == Some(h) && |waits| == |pairs| && (steady ==> AllWait(h, pairs, waits, now))
    {
      waits := [];
      for i := 0 to |pairs|
        invariant Snapshot(now, steady) == Some(h) && |waits| == i && (steady ==> AllWait(h, pairs[..i], waits, now))
      {
        assert pairs[..i + 1][..i] == pairs[..i];
        var wait := Query(pairs[i].0, pairs[i].1, now, h, steady);
        waits := waits + [wait];
        assert waits[..i] + [wait] == waits;
      }
      assert pairs[..|pairs|] == pairs;
    }

    /** Each wait is the least one of its pair. */
    ghost predicate AllWait(h: map<Scope, Table<K>>, pairs: seq<(Scope, K)>, waits: seq<nat>, now: int)
      requires h.Keys == windows.Keys && |waits| == |pairs|
      requires forall i :: 0 <= i < |pairs| ==> pairs[i].0 in windows
    {
      pairs == []
      || (AllWait(h, pairs[..|pairs| - 1], waits[..|pairs| - 1], now)
          && Waits(h, pairs[|pairs| - 1], now, waits[|pairs| - 1]))
    }

    lemma {:induction false} AllWaitAt(
      h: map<Scope, Table<K>>, pairs: seq<(Scope, K)>, waits: seq<nat>, now: int, i: nat)
      requires h.Keys == windows.Keys && |waits| == |pairs| && i < |pairs|
      requires forall i :: 0 <= i < |pairs| ==> pairs[i].0 in windows
      requires AllWait(h, pairs, waits, now)
      ensures Waits(h, pairs[i], now, waits[i])
    {
      if i < |pairs| - 1 {
        AllWaitAt(h, pairs[..|pairs| - 1], waits[..|pairs| - 1], now, i);
      }
    }

    method Query(scope: Scope, key: K, now: int, ghost h: map<Scope, Table<K>>, ghost steady: bool) returns (wait: nat)
      requires h.Keys == windows.Keys && Snapshot(now, steady) == Some(h) && scope in windows
      modifies windows[scope]
      ensures Snapshot(now, steady) == Some(h) && (steady ==> Waits(h, (scope, key), now, wait))
    {
      wait := windows[scope].SecondsUntilUnlocked(key, now);
      Rejoined(h, now, steady);
    }

    /** The parts of a snapshot, window by window. */
    lemma Rejoined(h: map<Scope, Table<K>>, now: int, steady: bool)
      requires h.Keys == windows.Keys
      requires forall s :: s in windows ==> windows[s].Valid() && windows[s].history == h[s]
      requires forall s, t :: s in windows && t in windows && s != t ==> windows[s] != windows[t]
      requires steady ==> Steady(now)
      ensures Snapshot(now, steady) == Some(h)
    {
      assert Histories() == h;
    }

    lemma WorstDecides(
      h: map<Scope, Table<K>>, pairs: seq<(Scope, K)>, waits: seq<nat>, worst: Option<Lockout>, now: int)
      requires h.Keys == windows.Keys && |waits| == |pairs| && IsWorst(worst, pairs, waits)
      requires forall i :: 0 <= i < |pairs| ==> pairs[i].0 in windows
      requires AllWait(h, pairs, waits, now)
      ensures Decides(h, pairs, worst, now)
    {
      var longest: nat := if worst.Some? then worst.value.retryAfter else 0;
      forall i | 0 <= i < |pairs| ensures !Refused(h, pairs[i], now, longest) {
        AllWaitAt(h, pairs, waits, now, i);
        var w := windows[pairs[i].0];
        StaysUnlocked(Get(h[pairs[i].0], pairs[i].1), now + SECOND * waits[i] - w.window, now
                      + SECOND * longest - w.window);
      }
      if worst.Some? {
        var i :| 0 <= i < |pairs| && waits[i] == longest && pairs[i].0 == worst.value.scope;
        AllWaitAt(h, pairs, waits, now, i);
        assert forall v: nat :: v < longest ==> Refused(h, pairs[i], now, v);
      }
    }
  }
}
