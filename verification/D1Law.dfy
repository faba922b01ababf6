/** What the sliding-window detectors measure, from the connection starts themselves. */
module D1Law {
  import opened Prelude
  import opened Sightings
  import opened D1

  // ------------------------------------------------------------------------ the window

  /** The positions of the sightings from `since` to `now`. */
  ghost function Inside<E>(queue: seq<Timed<E>>, since: int, now: int): seq<nat> {
    if queue == [] then []
    else
      var n := |queue| - 1;
      Inside(queue[..n], since, now) + if queue[n].at < since || queue[n].at > now then [] else [n]
  }

  /** A window holds exactly those, in order. */
  lemma {:induction false} WindowExact<E>(queue: seq<Timed<E>>, since: int, now: int)
    ensures
      var at := Inside(queue, since, now);
      && |Within(queue, since, now)| == |at|
      && forall i :: 0 <= i < |at| ==> at[i] < |queue| && Within(queue, since, now)[i] == queue[at[i]].item
  {
    if queue != [] {
      var rest, last := queue[..|queue| - 1], queue[|queue| - 1];
      WindowExact(rest, since, now);
      assert queue == rest + [last];
      WithinConcat(rest, [last], since, now);
      assert Within([last], since, now) == if since <= last.at <= now then [last.item] else [];
    }
  }

  // ------------------------------------------------------------------------- the scans

  /** The ports tried on one host, and the hosts tried on one port. */
  ghost function PortsTried(events: seq<Start>, host: Addr): set<Option<nat>> {
    set e | e in events && e.dest == host :: e.port
  }

  ghost function HostsTried(events: seq<Start>, port: Option<nat>): set<Addr> {
    set e | e in events && e.port == port :: e.dest
  }

  lemma {:induction false} PortsAreMembers(events: seq<Start>, host: Addr)
    ensures Members(HostThenPort(events), host) == PortsTried(events, host)
  {
    if events != [] {
      var rest, e := events[..|events| - 1], events[|events| - 1];
      PortsAreMembers(rest, host);
      assert HostThenPort(events)[..|rest|] == HostThenPort(rest);
      assert forall x :: x in events <==> x in rest || x == e;
    }
  }

  lemma {:induction false} HostsAreMembers(events: seq<Start>, port: Option<nat>)
    ensures Members(PortThenHost(events), port) == HostsTried(events, port)
  {
    if events != [] {
      var rest, e := events[..|events| - 1], events[|events| - 1];
      HostsAreMembers(rest, port);
      assert PortThenHost(events)[..|rest|] == PortThenHost(rest);
      assert forall x :: x in events <==> x in rest || x == e;
    }
  }

  /** The vertical scan is the most ports tried on any host, the horizontal one the most hosts tried on any port. */
  lemma ScansExact(c: Config, events: seq<Start>)
    ensures
      var m := Measure(c, events);
      && (forall host :: |PortsTried(events, host)| <= m.vertical)
      && (m.vertical > 0 ==> exists host :: |PortsTried(events, host)| == m.vertical)
      && (forall port :: |HostsTried(events, port)| <= m.horizontal)
      && (m.horizontal > 0 ==> exists port :: |HostsTried(events, port)| == m.horizontal)
  {
    forall host ensures |PortsTried(events, host)| <= MostDistinct(HostThenPort(events)) {
      PortsAreMembers(events, host);
      MostBounds(HostThenPort(events), host);
    }
    forall port ensures |HostsTried(events, port)| <= MostDistinct(PortThenHost(events)) {
      HostsAreMembers(events, port);
      MostBounds(PortThenHost(events), port);
    }
    if events != [] {
      var host := MostReached(HostThenPort(events));
      PortsAreMembers(events, host);
      var port := MostReached(PortThenHost(events));
      HostsAreMembers(events, port);
    }
  }

  // ------------------------------------------------------------------ failed handshakes

  predicate HasEnded(e: Start) { e.outcome != None }

  predicate HasFailed(e: Start) { match e.outcome case None => false case Some(outcome) => outcome.failed }

  /** The ratio is that of the failed among the completed starts, and is given once enough have completed. */
  lemma RatioExact(c: Config, events: seq<Start>)
    requires c.minStarts > 0
    ensures
      var completed := |Picked(events, HasEnded)|;
      var failed := |Picked(events, HasFailed)|;
      Measure(c, events).failed == if completed < c.minStarts then None else Some(failed as real / completed as real)
  {
    CompletedIsPicked(events);
  }

  /** The starts that pass a test, in order. */
  ghost function Picked(events: seq<Start>, test: Start -> bool): seq<Start> {
    if events == [] then []
    else Picked(events[..|events| - 1], test) + if test(events[|events| - 1]) then [events[|events| - 1]] else []
  }

  lemma {:induction false} CompletedIsPicked(events: seq<Start>)
    ensures Completed(events) == |Picked(events, HasEnded)|
    ensures Failures(events) == |Picked(events, HasFailed)|
  {
    if events != [] {
      CompletedIsPicked(events[..|events| - 1]);
    }
  }

  // ------------------------------------------------------------------------ brute force

  /** A completed exchange with a service that did not fail and was over soon. */
  predicate Guess(c: Config, e: Start, host: Addr, port: nat) {
    && e.dest == host && e.port == Some(port) && port in c.brutePorts
    && match e.outcome
       case None => false
       case Some(outcome) => !outcome.failed && outcome.duration <= c.maxDuration
  }

  /** Their sizes, in order. */
  ghost function GuessSizes(c: Config, events: seq<Start>, host: Addr, port: nat): seq<nat> {
    if events == [] then []
    else
      var last := events[|events| - 1];
      GuessSizes(c, events[..|events| - 1], host, port)
      + if Guess(c, last, host, port) && last.outcome.Some? then [last.outcome.value.bytes] else []
  }

  /** How many of the sizes are within the tolerance of the centre, which is at least that of one byte. */
  ghost function AroundCentre(c: Config, sizes: seq<nat>, centre: real): nat {
    if sizes == [] then 0
    else
      var last, slack := sizes[|sizes| - 1] as real, c.tolerance * (if centre >= 1.0 then centre else 1.0);
      AroundCentre(c, sizes[..|sizes| - 1], centre) + if centre - slack <= last <= centre + slack then 1 else 0
  }

  lemma {:induction false} SizesAreGuesses(c: Config, events: seq<Start>, host: Addr, port: nat)
    ensures SizesOf(c, events, (host, port)) == GuessSizes(c, events, host, port)
  {
    if events != [] {
      SizesAreGuesses(c, events[..|events| - 1], host, port);
    }
  }

  lemma {:induction false} SimilarIsAround(c: Config, sizes: seq<nat>, centre: real)
    ensures Similar(c, sizes, centre) == AroundCentre(c, sizes, centre)
  {
    if sizes != [] {
      SimilarIsAround(c, sizes[..|sizes| - 1], centre);
    }
  }

  /** The guesses at one service that are of a size with the median. */
  ghost function AlikeAt(c: Config, events: seq<Start>, host: Addr, port: nat): nat {
    var sizes := GuessSizes(c, events, host, port);
    if sizes == [] then 0 else AroundCentre(c, sizes, c.median(sizes))
  }

  lemma AlikeIsSimilar(c: Config, events: seq<Start>, host: Addr, port: nat)
    ensures GuessSizes(c, events, host, port) != [] ==>
      AlikeAt(c, events, host, port) == SimilarTo(c, events, (host, port))
    ensures AlikeAt(c, events, host, port) <= BruteForce(c, events)
  {
    var sizes := GuessSizes(c, events, host, port);
    SizesAreGuesses(c, events, host, port);
    if sizes != [] {
      SimilarIsAround(c, sizes, c.median(sizes));
      var i := SizesFromEvent(c, events, (host, port));
      BruteBounds(c, events, |events|, i);
    }
  }

  /** The brute-force value is the most guesses of a size at any service. */
  lemma BruteExact(c: Config, events: seq<Start>)
    ensures
      var m := Measure(c, events);
      && (forall host, port :: AlikeAt(c, events, host, port) <= m.brute)
      && (m.brute > 0 ==> exists host, port :: AlikeAt(c, events, host, port) == m.brute)
  {
    forall host: Addr, port: nat ensures AlikeAt(c, events, host, port) <= BruteForce(c, events) {
      AlikeIsSimilar(c, events, host, port);
    }
    if BruteForce(c, events) > 0 {
      var i := BruteReached(c, events, |events|);
      var (host, port) := ServiceOf(events[i]);
      AlikeIsSimilar(c, events, host, port);
      GuessIsSized(c, events, i, host, port);
      assert AlikeAt(c, events, host, port) == BruteForce(c, events);
    }
  }

  lemma {:induction false} GuessIsSized(c: Config, events: seq<Start>, i: nat, host: Addr, port: nat)
    requires i < |events| && Eligible(c, events[i]) && ServiceOf(events[i]) == (host, port)
    ensures GuessSizes(c, events, host, port) != []
  {
    if i < |events| - 1 {
      GuessIsSized(c, events[..|events| - 1], i, host, port);
    }
  }
}
