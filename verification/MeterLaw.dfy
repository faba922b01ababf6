/** What becomes of every packet put to a meter, told from the packets before it alone. */
module MeterLaw {
  import opened Prelude
  import opened TokenBucket
  import opened MeterSet

  // ----------------------------------------------------------- lives, from the packets alone

  /** For each key that was ever given an element, the packet that made the latest one. */
  type Births<K> = map<K, nat>

  /** The key's latest element has not expired. */
  ghost predicate Alive<K>(decl: Decl, ps: seq<Packet<K>>, births: Births<K>, key: K, at: real) {
    && key in births && births[key] < |ps|
    && (decl.timeout.None? || ps[births[key]].at + decl.timeout.value > at)
  }

  /** The other keys with an element that has not expired. */
  ghost function Others<K>(decl: Decl, ps: seq<Packet<K>>, births: Births<K>, key: K, at: real): set<K> {
    set k | k in births && k != key && Alive(decl, ps, births, k, at)
  }

  /** A packet whose key has no element finds the set full. */
  ghost predicate Crowded<K>(decl: Decl, ps: seq<Packet<K>>, births: Births<K>, key: K, at: real) {
    !Alive(decl, ps, births, key, at) && |Others(decl, ps, births, key, at)| >= decl.size
  }

  /** A packet makes an element when its key has none and the set is not full. */
  ghost function Born<K>(decl: Decl, ps: seq<Packet<K>>): Births<K>
    decreases |ps|, 1
  {
    if ps == [] then map[] else BornLast(decl, ps)
  }

  ghost function BornLast<K>(decl: Decl, ps: seq<Packet<K>>): Births<K>
    requires ps != []
    decreases |ps|, 0
  {
    Bear(decl, ps[..|ps| - 1], Born(decl, ps[..|ps| - 1]), ps[|ps| - 1])
  }

  ghost function Bear<K>(decl: Decl, ps: seq<Packet<K>>, births: Births<K>, p: Packet<K>): Births<K> {
    if Alive(decl, ps, births, p.key, p.at) || Crowded(decl, ps, births, p.key, p.at) then births
    else births[p.key := |ps|]
  }

  /** The times of a key's packets from number `from` on. */
  ghost function Arrivals<K>(ps: seq<Packet<K>>, key: K, from: nat): seq<real> {
    if |ps| <= from then []
    else
      var last := ps[|ps| - 1];
      Arrivals(ps[..|ps| - 1], key, from) + if last.key == key then [last.at] else []
  }

  lemma ArrivalsLast<K>(ps: seq<Packet<K>>, p: Packet<K>, key: K, from: nat)
    requires from <= |ps|
    ensures Arrivals(ps + [p], key, from)
         == if p.key == key then Arrivals(ps, key, from) + [p.at] else Arrivals(ps, key, from)
  {
    assert (ps + [p])[..|ps|] == ps;
  }

  // ------------------------------------------------------------ a bucket is its arrivals

  ghost predicate SameTokens(a: Bucket, b: Bucket) { a.tokens == b.tokens && a.last == b.last }

  lemma SameTake(a: Bucket, b: Bucket, rate: real, burst: nat, at: real)
    requires SameTokens(a, b)
    ensures SameTokens(Take(a, rate, burst, at).0, Take(b, rate, burst, at).0)
    ensures Take(a, rate, burst, at).1 == Take(b, rate, burst, at).1
    ensures Take(a, rate, burst, at).0.expiresAt == a.expiresAt
  {
  }

  lemma {:induction false} AfterPrefix(ats: seq<real>, at: real, rate: real, burst: nat, j: nat)
    requires j < |ats|
    ensures After(ats + [at], rate, burst, j) == After(ats, rate, burst, j)
  {
    if j > 0 {
      AfterPrefix(ats, at, rate, burst, j - 1);
    }
  }

  /** The bucket left by these arrivals. */
  ghost predicate Holds(b: Bucket, ats: seq<real>, rule: Rule) {
    ats != [] && SameTokens(b, After(ats, rule.rate, rule.burst, |ats| - 1))
  }

  lemma HoldsFirst(rule: Rule, at: real, expiresAt: Option<real>)
    ensures
      var (b, passed) := Take(Fresh(rule.burst, at, expiresAt), rule.rate, rule.burst, at);
      Holds(b, [at], rule) && b.expiresAt == expiresAt && passed == TokenBucket.Passed([at], rule.rate, rule.burst, 0)
  {
    SameTake(Fresh(rule.burst, at, expiresAt), Fresh(rule.burst, at, None), rule.rate, rule.burst, at);
  }

  lemma HoldsNext(b: Bucket, ats: seq<real>, rule: Rule, at: real)
    requires Holds(b, ats, rule)
    ensures
      var (b', passed) := Take(b, rule.rate, rule.burst, at);
      && Holds(b', ats + [at], rule) && b'.expiresAt == b.expiresAt
      && passed == TokenBucket.Passed(ats + [at], rule.rate, rule.burst, |ats|)
  {
    AfterPrefix(ats, at, rule.rate, rule.burst, |ats| - 1);
    SameTake(b, After(ats, rule.rate, rule.burst, |ats| - 1), rule.rate, rule.burst, at);
  }

  // ----------------------------------------------------------- the set follows the lives

  /** One key's element is that of its latest life, or the life is over. */
  ghost predicate Follows<K>(
    rule: Rule, decl: Decl, ps: seq<Packet<K>>, elements: Elements<K>, births: Births<K>, key: K, now: real) {
    && (key in births ==> births[key] < |ps|)
    && (key in elements ==>
          && key in births && births[key] < |ps| && elements[key].expiresAt == Expiry(decl, ps[births[key]].at)
          && Holds(elements[key], Arrivals(ps, key, births[key]), rule))
    && (key in births && key !in elements ==> !Alive(decl, ps, births, key, now))
  }

  ghost predicate AllFollow<K(!new)>(
    rule: Rule, decl: Decl, ps: seq<Packet<K>>, elements: Elements<K>, births: Births<K>, now: real) {
    forall key :: Follows(rule, decl, ps, elements, births, key, now)
  }

  lemma AliveIsLive<K>(
    rule: Rule, decl: Decl, ps: seq<Packet<K>>, elements: Elements<K>, births: Births<K>, key: K, now: real, at: real)
    requires Follows(rule, decl, ps, elements, births, key, now) && now <= at
    ensures Alive(decl, ps, births, key, at) <==> key in elements && Live(elements[key], at)
  {
  }

  /** Making room leaves the set full exactly when enough other keys are alive. */
  lemma RoomIsOthers<K(!new)>(
    rule: Rule, decl: Decl, ps: seq<Packet<K>>, elements: Elements<K>, births: Births<K>, key: K, now: real, at: real)
    requires AllFollow(rule, decl, ps, elements, births, now) && now <= at
    ensures |MakeRoom(elements, key, at, decl.size)| >= decl.size <==> |Others(decl, ps, births, key, at)| >= decl.size
  {
    var rest := elements - {key};
    var unexpired := Unexpired(rest, at);
    forall k ensures k in unexpired <==> k in Others(decl, ps, births, key, at) {
      AliveIsLive(rule, decl, ps, elements, births, k, now, at);
    }
    assert unexpired.Keys == Others(decl, ps, births, key, at);
  }

  // -------------------------------------------------------------------------- the law

  /** With the last arrival, more than `burst + rate * t` packets would have passed since arrival `i`, `t` before it. */
  ghost predicate OverSince(ats: seq<real>, rule: Rule, i: nat) {
    i < |ats| && Exceeds(ats, rule.rate, rule.burst, i, |ats| - 1)
  }

  ghost predicate OverRate(ats: seq<real>, rule: Rule) {
    exists i :: OverSince(ats, rule, i)
  }

  lemma RefusedIsOverRate(ats: seq<real>, rule: Rule, j: nat)
    requires |ats| == j + 1
    ensures TokenBucket.Passed(ats, rule.rate, rule.burst, j) <==> !OverRate(ats, rule)
  {
    RefusedExactlyWhen(ats, rule.rate, rule.burst, j);
    if exists i :: 0 <= i <= j && Exceeds(ats, rule.rate, rule.burst, i, j) {
      var i :| 0 <= i <= j && Exceeds(ats, rule.rate, rule.burst, i, j);
      assert OverSince(ats, rule, i);
    }
    if OverRate(ats, rule) {
      var i: nat :| OverSince(ats, rule, i);
      assert Exceeds(ats, rule.rate, rule.burst, i, j);
    }
  }

  /** What must become of `p` after `ps`. */
  ghost function Verdict<K>(rule: Rule, decl: Decl, ps: seq<Packet<K>>, births: Births<K>, p: Packet<K>): Outcome
    requires p.key in births ==> births[p.key] <= |ps|
  {
    if Crowded(decl, ps, births, p.key, p.at) then FailOpen
    else if OverRate(Arrivals(ps + [p], p.key, Bear(decl, ps, births, p)[p.key]), rule) then Over
    else Pass
  }

  /** A packet of another key. */
  lemma OtherFollows<K>(
    rule: Rule, decl: Decl, ps: seq<Packet<K>>, elements: Elements<K>, births: Births<K>, key: K, now: real,
    p: Packet<K>)
    requires Follows(rule, decl, ps, elements, births, key, now) && now <= p.at && p.key != key
    ensures Follows(rule, decl, ps + [p], Meter(elements, rule, decl, p.key, p.at).0, Bear(decl, ps, births, p), key,
                    p.at)
  {
    OtherKey(elements, rule, decl, key, p);
    UntouchedFollows(rule, decl, ps, elements, births, key, now, p, Meter(elements, rule, decl, p.key, p.at).0,
                     Bear(decl, ps, births, p));
  }

  lemma UntouchedFollows<K>(
    rule: Rule, decl: Decl, ps: seq<Packet<K>>, elements: Elements<K>, births: Births<K>, key: K, now: real,
    p: Packet<K>, after: Elements<K>, births': Births<K>)
    requires Follows(rule, decl, ps, elements, births, key, now) && now <= p.at && p.key != key
    requires key in births' <==> key in births
    requires key in births ==> births'[key] == births[key]
    requires
      || BucketOf(after, key) == BucketOf(elements, key)
      || (BucketOf(after, key).None? && key in elements && !Live(elements[key], p.at))
    ensures Follows(rule, decl, ps + [p], after, births', key, p.at)
  {
    AliveIsLive(rule, decl, ps, elements, births, key, now, p.at);
    if key in births {
      ArrivalsLast(ps, p, key, births[key]);
      assert (ps + [p])[births[key]] == ps[births[key]];
    }
  }

  /** The key's element is asked for a token. */
  lemma LiveFollows<K>(
    rule: Rule, decl: Decl, ps: seq<Packet<K>>, elements: Elements<K>, births: Births<K>, now: real, p: Packet<K>)
    requires Follows(rule, decl, ps, elements, births, p.key, now) && now <= p.at
    requires p.key in elements && Live(elements[p.key], p.at)
    ensures
      var (after, outcome) := Meter(elements, rule, decl, p.key, p.at);
      && Follows(rule, decl, ps + [p], after, Bear(decl, ps, births, p), p.key, p.at)
      && outcome == Verdict(rule, decl, ps, births, p)
  {
    var born := births[p.key];
    var ats := Arrivals(ps, p.key, born);
    AliveIsLive(rule, decl, ps, elements, births, p.key, now, p.at);
    ArrivalsLast(ps, p, p.key, born);
    HoldsNext(elements[p.key], ats, rule, p.at);
    RefusedIsOverRate(ats + [p.at], rule, |ats|);
    assert (ps + [p])[born] == ps[born];
  }

  /** The key gets a new element. */
  lemma NewFollows<K>(rule: Rule, decl: Decl, ps: seq<Packet<K>>, births: Births<K>, room: Elements<K>, p: Packet<K>)
    requires !Alive(decl, ps, births, p.key, p.at) && !Crowded(decl, ps, births, p.key, p.at)
    requires p.key in births ==> births[p.key] < |ps|
    ensures
      var (b, passed) := Take(Fresh(rule.burst, p.at, Expiry(decl, p.at)), rule.rate, rule.burst, p.at);
      && Follows(rule, decl, ps + [p], room[p.key := b], Bear(decl, ps, births, p), p.key, p.at)
      && (if passed then Pass else Over) == Verdict(rule, decl, ps, births, p)
  {
    ArrivalsLast(ps, p, p.key, |ps|);
    assert Arrivals(ps + [p], p.key, |ps|) == [p.at];
    HoldsFirst(rule, p.at, Expiry(decl, p.at));
    RefusedIsOverRate([p.at], rule, 0);
  }

  lemma OwnFollows<K(!new)>(
    rule: Rule, decl: Decl, ps: seq<Packet<K>>, elements: Elements<K>, births: Births<K>, now: real, p: Packet<K>)
    requires AllFollow(rule, decl, ps, elements, births, now) && now <= p.at
    ensures p.key in births ==> births[p.key] < |ps|
    ensures
      var (after, outcome) := Meter(elements, rule, decl, p.key, p.at);
      && Follows(rule, decl, ps + [p], after, Bear(decl, ps, births, p), p.key, p.at)
      && outcome == Verdict(rule, decl, ps, births, p)
  {
    assert Follows(rule, decl, ps, elements, births, p.key, now);
    AliveIsLive(rule, decl, ps, elements, births, p.key, now, p.at);
    if p.key in elements && Live(elements[p.key], p.at) {
      LiveFollows(rule, decl, ps, elements, births, now, p);
    } else {
      RoomIsOthers(rule, decl, ps, elements, births, p.key, now, p.at);
      var room := MakeRoom(elements, p.key, p.at, decl.size);
      if |room| >= decl.size {
        assert p.key in births ==> (ps + [p])[births[p.key]] == ps[births[p.key]];
      } else {
        NewFollows(rule, decl, ps, births, room, p);
      }
    }
  }

  ghost function Latest<K>(ps: seq<Packet<K>>, start: real): real {
    if ps == [] then start else ps[|ps| - 1].at
  }

  lemma {:induction false} RunFollows<K(!new)>(rule: Rule, decl: Decl, ps: seq<Packet<K>>, start: real)
    requires Ordered(ps)
    ensures AllFollow(rule, decl, ps, Run(rule, decl, ps), Born(decl, ps), Latest(ps, start))
  {
    if ps != [] {
      var rest, p := ps[..|ps| - 1], ps[|ps| - 1];
      RunFollows(rule, decl, rest, p.at);
      assert ps == rest + [p];
      assert Run(rule, decl, ps) == RunLast(rule, decl, ps) && Born(decl, ps) == BornLast(decl, ps);
      forall key ensures Follows(rule, decl, ps, Run(rule, decl, ps), Born(decl, ps), key, p.at) {
        if key == p.key {
          OwnFollows(rule, decl, rest, Run(rule, decl, rest), Born(decl, rest), Latest(rest, p.at), p);
        } else {
          OtherFollows(rule, decl, rest, Run(rule, decl, rest), Born(decl, rest), key, Latest(rest, p.at), p);
        }
      }
    }
  }

  /**
   What becomes of the last of any packets in time order. It goes unmetered exactly when its key has no unexpired
   element and at least `size` other keys have one; else it is over the limit exactly when passing it would exceed
   the rate over some window that began with a packet of the key's present element.
   */
  lemma OutcomeExact<K(!new)>(rule: Rule, decl: Decl, ps: seq<Packet<K>>, p: Packet<K>)
    requires Ordered(ps + [p])
    ensures p.key in Born(decl, ps) ==> Born(decl, ps)[p.key] < |ps|
    ensures LastOutcome(rule, decl, ps + [p]) == Verdict(rule, decl, ps, Born(decl, ps), p)
  {
    var all := ps + [p];
    assert all[..|ps|] == ps;
    assert Ordered(ps) by {
      assert forall i :: 0 <= i < |ps| ==> all[i] == ps[i];
    }
    RunFollows(rule, decl, ps, p.at);
    assert Latest(ps, p.at) <= p.at by {
      assert ps != [] ==> all[|ps| - 1].at <= all[|ps|].at;
    }
    OwnFollows(rule, decl, ps, Run(rule, decl, ps), Born(decl, ps), Latest(ps, p.at), p);
  }
}
