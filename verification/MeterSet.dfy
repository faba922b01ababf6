/** A kernel meter: one token bucket per key in a bounded set whose elements expire. */
module MeterSet {
  import opened Prelude
  import opened TokenBucket

  datatype Rule = Rule(rate: real, burst: nat)

  /** A dynamic set's timeout (None for no timeout) and size. */
  datatype Decl = Decl(timeout: Option<real>, size: nat)

  /** A full set cannot create an element and lets the packet go unmetered. */
  datatype Outcome = FailOpen | Pass | Over

  type Elements<K> = map<K, Bucket>

  predicate Live(b: Bucket, at: real) {
    b.expiresAt.None? || b.expiresAt.value > at
  }

  function Unexpired<K>(elements: Elements<K>, at: real): (r: Elements<K>)
    ensures |r| <= |elements|
  {
    var r := map k | k in elements && Live(elements[k], at) :: elements[k];
    Fewer(r, elements);
    r
  }

  lemma Fewer<K, V>(a: map<K, V>, b: map<K, V>)
    requires a.Keys <= b.Keys
    ensures |a| <= |b|
  {
    SubsetSize(a.Keys, b.Keys);
  }

  /** The elements left once room has been made for `key`, whose own element is absent or expired. */
  function MakeRoom<K(==)>(elements: Elements<K>, key: K, at: real, size: nat): Elements<K> {
    var rest := elements - {key};
    if |rest| >= size then Unexpired(rest, at) else rest
  }

  function Expiry(decl: Decl, at: real): Option<real> {
    if decl.timeout.Some? then Some(at + decl.timeout.value) else None
  }

  /** `add @set { key limit ... }`: the live element, a new full one, or none when the set is full. */
  function Element<K(==)>(elements: Elements<K>, decl: Decl, key: K, burst: nat, at: real): Elements<K> {
    if key in elements && Live(elements[key], at) then elements
    else
      var room := MakeRoom(elements, key, at, decl.size);
      if |room| >= decl.size then room else room[key := Fresh(burst, at, Expiry(decl, at))]
  }

  /** One meter rule on one packet. */
  function Meter<K(==)>(elements: Elements<K>, rule: Rule, decl: Decl, key: K, at: real): (Elements<K>, Outcome) {
    var found := Element(elements, decl, key, rule.burst, at);
    if key !in found then (found, FailOpen)
    else
      var (bucket, passed) := Take(found[key], rule.rate, rule.burst, at);
      (found[key := bucket], if passed then Pass else Over)
  }

  /** No meter set ever holds more elements than its declared size. */
  lemma MeterBounded<K>(elements: Elements<K>, rule: Rule, decl: Decl, key: K, at: real)
    requires |elements| <= decl.size
    ensures |Meter(elements, rule, decl, key, at).0| <= decl.size
  {
    var rest := elements - {key};
    Fewer(rest, elements);
    var found := Element(elements, decl, key, rule.burst, at);
    assert |found| <= decl.size;
    if key in found {
      var after := Meter(elements, rule, decl, key, at).0;
      assert after.Keys == found.Keys;
    }
  }

  // ------------------------------------------------------------------ runs of packets

  datatype Packet<K> = Packet(key: K, at: real)

  ghost function Run<K>(rule: Rule, decl: Decl, ps: seq<Packet<K>>): Elements<K>
    decreases |ps|, 1
  {
    if ps == [] then map[] else RunLast(rule, decl, ps)
  }

  ghost function RunLast<K>(rule: Rule, decl: Decl, ps: seq<Packet<K>>): Elements<K>
    requires ps != []
    decreases |ps|, 0
  {
    var last := ps[|ps| - 1];
    Meter(Run(rule, decl, ps[..|ps| - 1]), rule, decl, last.key, last.at).0
  }

  /** Whether the last packet of a run passed. */
  ghost function LastOutcome<K>(rule: Rule, decl: Decl, ps: seq<Packet<K>>): Outcome
    requires ps != []
  {
    var last := ps[|ps| - 1];
    Meter(Run(rule, decl, ps[..|ps| - 1]), rule, decl, last.key, last.at).1
  }

  ghost predicate Ordered<K>(ps: seq<Packet<K>>) {
    forall i, j :: 0 <= i < j < |ps| ==> ps[i].at <= ps[j].at
  }

  lemma {:induction false} RunBounded<K>(rule: Rule, decl: Decl, ps: seq<Packet<K>>)
    ensures |Run(rule, decl, ps)| <= decl.size
  {
    if ps != [] {
      assert Run(rule, decl, ps) == RunLast(rule, decl, ps);
      RunBounded(rule, decl, ps[..|ps| - 1]);
      var last := ps[|ps| - 1];
      MeterBounded(Run(rule, decl, ps[..|ps| - 1]), rule, decl, last.key, last.at);
    }
  }

  /** Packets of `key` that took a token at or after `from`. */
  ghost function Passes<K>(rule: Rule, decl: Decl, ps: seq<Packet<K>>, key: K, from: real): nat
    decreases |ps|, 1
  {
    if ps == [] then 0 else PassesLast(rule, decl, ps, key, from)
  }

  ghost function PassesLast<K>(rule: Rule, decl: Decl, ps: seq<Packet<K>>, key: K, from: real): nat
    requires ps != []
    decreases |ps|, 0
  {
    var last := ps[|ps| - 1];
    Passes(rule, decl, ps[..|ps| - 1], key, from)
    + if last.key == key && last.at >= from && LastOutcome(rule, decl, ps) == Pass then 1 else 0
  }

  // ------------------------------------------------------ the books of one key's elements

  /** Lives of the key's element that began at or after `from`, and when the latest of them ends. */
  datatype Lives = Lives(count: nat, ends: real)

  ghost predicate Creates<K>(elements: Elements<K>, decl: Decl, key: K, at: real) {
    && !(key in elements && Live(elements[key], at))
    && |MakeRoom(elements, key, at, decl.size)| < decl.size
  }

  ghost function NewLife(l: Lives, timeout: real, from: real, at: real): Lives {
    if at >= from then Lives(l.count + 1, at + timeout) else l
  }

  ghost function LivesStep<K>(
    l: Lives, elements: Elements<K>, decl: Decl, key: K, p: Packet<K>, timeout: real, from: real): Lives {
    if p.key == key && Creates(elements, decl, key, p.at) then NewLife(l, timeout, from, p.at) else l
  }

  ghost function Lived<K>(rule: Rule, decl: Decl, ps: seq<Packet<K>>, key: K, from: real): Lives
    requires decl.timeout.Some?
  {
    if ps == [] then Lives(0, from)
    else
      LivesStep(Lived(rule, decl, ps[..|ps| - 1], key, from), Run(rule, decl, ps[..|ps| - 1]), decl, key, ps[|ps| - 1],
                decl.timeout.value, from)
  }

  /** Upper bound on passes plus tokens in hand, after `lives` element lives and `span` seconds. */
  ghost function Budget(rule: Rule, lives: nat, span: real): real {
    Gain(lives as real, rule.burst as real) + Gain(span, rule.rate)
  }

  /** One key's books: its bucket at time `now`, and its passes and lives since `from`. */
  datatype Book = Book(rule: Rule, timeout: real, from: real, bucket: Option<Bucket>, passes: nat, l: Lives, now: real)
  {
    ghost function Limit(span: real): real {
      Budget(rule, l.count + 1, span)
    }

    /** The bucket respects its limits, and what it passed fits the budget. */
    ghost predicate BucketBooked(b: Bucket) {
      && 0.0 <= b.tokens <= rule.burst as real && b.last <= now && b.expiresAt.Some?
      && passes as real + b.tokens <= Limit(MaxR(b.last, from) - from)
      && (b.last < from ==> passes == 0)
      && (l.count > 0 ==> b.expiresAt.value == l.ends)
    }

    ghost predicate Balanced() {
      && rule.rate >= 0.0 && timeout > 0.0
      && (now < from ==> passes == 0 && l.count == 0)
      && from + Gain(l.count as real, timeout) <= l.ends
      && (l.count > 0 ==> l.ends - timeout <= now)
      && match bucket
         case None => passes as real <= Limit(MaxR(now, from) - from) && (l.count > 0 ==> l.ends <= now)
         case Some(b) => BucketBooked(b)
    }
  }

  type Books = b: Book | b.Balanced() ghost witness Book(Rule(0.0, 0), 1.0, 0.0, None, 0, Lives(0, 0.0), 0.0)

  lemma BudgetGrows(rule: Rule, lives: nat, a: real, b: real)
    requires rule.rate >= 0.0 && a <= b
    ensures Budget(rule, lives, a) <= Budget(rule, lives, b)
    ensures Budget(rule, lives, b) == Budget(rule, lives, a) + Gain(b - a, rule.rate)
    ensures Budget(rule, lives + 1, a) == Budget(rule, lives, a) + rule.burst as real
    ensures a >= 0.0 ==> Budget(rule, lives + 1, a) >= rule.burst as real
  {
    GainLaws(a, b, rule.rate);
    GainLaws(a, b - a, rule.rate);
    GainLaws(0.0, a, rule.rate);
    GainLaws(lives as real, 1.0, rule.burst as real);
    GainLaws(0.0, lives as real, rule.burst as real);
    assert (lives + 1) as real == lives as real + 1.0;
    assert Gain(1.0, rule.burst as real) == rule.burst as real;
    assert a + (b - a) == b;
  }

  /** Time passes; the key is not touched. */
  lemma Idle(b: Books, at: real)
    requires b.now <= at
    ensures b.(now := at).Balanced()
  {
    BudgetGrows(b.rule, b.l.count + 1, MaxR(b.now, b.from) - b.from, MaxR(at, b.from) - b.from);
  }

  /** An expired element is removed. */
  lemma Expire(b: Books, at: real)
    requires b.now <= at && b.bucket.Some? && !Live(b.bucket.value, at)
    ensures b.(bucket := None, now := at).Balanced()
  {
    BudgetGrows(b.rule, b.l.count + 1, MaxR(b.bucket.value.last, b.from) - b.from, MaxR(at, b.from) - b.from);
  }

  /** The book of a key that has no live element. */
  lemma Vacated(b: Books, at: real)
    requires b.now <= at && !(b.bucket.Some? && Live(b.bucket.value, at))
    ensures b.(bucket := None, now := at).Balanced()
  {
    if b.bucket.Some? {
      Expire(b, at);
    } else {
      Idle(b, at);
    }
  }

  /** A new life starts with a full bucket. */
  lemma Create(b: Books)
    requires b.bucket.None?
    ensures b.(bucket := Some(Fresh(b.rule.burst, b.now, Some(b.now + b.timeout))),
               l := NewLife(b.l, b.timeout, b.from, b.now)).Balanced()
  {
    var span := MaxR(b.now, b.from) - b.from;
    BudgetGrows(b.rule, b.l.count + 1, span, span);
    BudgetGrows(b.rule, b.l.count, span, span);
    GainLaws(b.l.count as real, 1.0, b.timeout);
    GainLaws(0.0, 0.0, b.timeout);
    assert (b.l.count + 1) as real == b.l.count as real + 1.0;
    assert Gain(1.0, b.timeout) == b.timeout;
  }

  /** A packet asks the live bucket for a token. */
  ghost function Served(b: Book, at: real): Book
    requires b.bucket.Some?
  {
    var (bucket, passed) := Take(b.bucket.value, b.rule.rate, b.rule.burst, at);
    b.(bucket := Some(bucket), passes := b.passes + (if passed && at >= b.from then 1 else 0), now := at)
  }

  lemma TakeBooked(b: Books, at: real)
    requires b.now <= at && b.bucket.Some?
    ensures Served(b, at).Balanced()
  {
    var last := b.bucket.value.last;
    var full := Refill(b.bucket.value, b.rule.rate, b.rule.burst, at);
    GainLaws(0.0, at - last, b.rule.rate);
    assert MaxR(at - last, 0.0) == at - last;
    if at >= b.from {
      BudgetGrows(b.rule, b.l.count + 1, MaxR(last, b.from) - b.from, at - b.from);
      BudgetGrows(b.rule, b.l.count, at - b.from, at - b.from);
      if last >= b.from {
        assert (at - b.from) - (last - b.from) == at - last;
      }
      assert b.passes as real + full.tokens <= b.Limit(at - b.from);
    } else {
      BudgetGrows(b.rule, b.l.count, 0.0, 0.0);
    }
  }

  ghost function BucketOf<K>(elements: Elements<K>, key: K): Option<Bucket> {
    if key in elements then Some(elements[key]) else None
  }

  /** A packet of another key leaves this one's element alone, or removes it once expired. */
  lemma OtherKey<K>(elements: Elements<K>, rule: Rule, decl: Decl, key: K, p: Packet<K>)
    requires p.key != key
    ensures
      var after := Meter(elements, rule, decl, p.key, p.at).0;
      || BucketOf(after, key) == BucketOf(elements, key)
      || (BucketOf(after, key).None? && key in elements && !Live(elements[key], p.at))
  {
  }

  /** What a packet does to the book of its own key; `creates` when it makes a new element. */
  ghost function OwnStep(b: Book, creates: bool, at: real): (Book, Outcome) {
    if b.bucket.Some? && Live(b.bucket.value, at) then TakeStep(b, at)
    else if creates then
      TakeStep(b.(bucket := Some(Fresh(b.rule.burst, at, Some(at + b.timeout))),
                  l := NewLife(b.l, b.timeout, b.from, at), now := at), at)
    else (b.(bucket := None, now := at), FailOpen)
  }

  ghost function TakeStep(b: Book, at: real): (Book, Outcome)
    requires b.bucket.Some?
  {
    (Served(b, at), if Take(b.bucket.value, b.rule.rate, b.rule.burst, at).1 then Pass else Over)
  }

  lemma OwnBooked(b: Books, creates: bool, at: real)
    requires b.now <= at && (creates ==> !(b.bucket.Some? && Live(b.bucket.value, at)))
    ensures OwnStep(b, creates, at).0.Balanced()
  {
    if b.bucket.Some? && Live(b.bucket.value, at) {
      TakeBooked(b, at);
    } else {
      Vacated(b, at);
      var vacant := b.(bucket := None, now := at);
      if creates {
        Create(vacant);
        TakeBooked(vacant.(bucket := Some(Fresh(b.rule.burst, at, Some(at + b.timeout))),
                           l := NewLife(b.l, b.timeout, b.from, at)), at);
      }
    }
  }

  /** The book of `key` once `p` has been metered. */
  ghost function StepBook<K>(b: Book, elements: Elements<K>, decl: Decl, key: K, p: Packet<K>): Book {
    var (after, outcome) := Meter(elements, b.rule, decl, p.key, p.at);
    b.(bucket := BucketOf(after, key),
       passes := b.passes + (if p.key == key && p.at >= b.from && outcome == Pass then 1 else 0),
       l := LivesStep(b.l, elements, decl, key, p, b.timeout, b.from),
       now := p.at)
  }

  lemma OwnKey<K>(b: Book, elements: Elements<K>, decl: Decl, p: Packet<K>)
    requires decl.timeout == Some(b.timeout) && b.bucket == BucketOf(elements, p.key)
    ensures StepBook(b, elements, decl, p.key, p) == OwnStep(b, Creates(elements, decl, p.key, p.at), p.at).0
  {
  }

  /** One packet keeps the books of every key. */
  lemma StepBooked<K>(b: Books, elements: Elements<K>, decl: Decl, key: K, p: Packet<K>) returns (b': Books)
    requires decl.timeout == Some(b.timeout) && b.bucket == BucketOf(elements, key) && b.now <= p.at
    ensures b' == StepBook(b, elements, decl, key, p)
  {
    if p.key == key {
      OwnKey(b, elements, decl, p);
      OwnBooked(b, Creates(elements, decl, p.key, p.at), p.at);
      b' := OwnStep(b, Creates(elements, decl, p.key, p.at), p.at).0;
    } else {
      OtherKey(elements, b.rule, decl, key, p);
      if BucketOf(Meter(elements, b.rule, decl, p.key, p.at).0, key) == b.bucket {
        Idle(b, p.at);
        b' := b.(now := p.at);
      } else {
        Expire(b, p.at);
        b' := b.(bucket := None, now := p.at);
      }
    }
  }

  ghost function BookOf<K>(rule: Rule, decl: Decl, ps: seq<Packet<K>>, key: K, from: real, start: real): Book
    requires decl.timeout.Some?
  {
    Book(rule, decl.timeout.value, from, BucketOf(Run(rule, decl, ps), key), Passes(rule, decl, ps, key, from),
         Lived(rule, decl, ps, key, from), if ps == [] then start else ps[|ps| - 1].at)
  }

  /** The books balance after every run of packets in time order. */
  lemma {:induction false} RunBooked<K>(
    rule: Rule, decl: Decl, ps: seq<Packet<K>>, key: K, from: real, start: real) returns (b: Books)
    requires rule.rate >= 0.0 && decl.timeout.Some? && decl.timeout.value > 0.0
    requires Ordered(ps) && (ps != [] ==> start <= ps[0].at) && start < from
    ensures b == BookOf(rule, decl, ps, key, from, start)
  {
    if ps == [] {
      EmptyBalances(rule, decl.timeout.value, from, start);
      b := Book(rule, decl.timeout.value, from, None, 0, Lives(0, from), start);
    } else {
      var rest := ps[..|ps| - 1];
      assert Run(rule, decl, ps) == RunLast(rule, decl, ps);
      assert Passes(rule, decl, ps, key, from) == PassesLast(rule, decl, ps, key, from);
      var before := RunBooked(rule, decl, rest, key, from, start);
      b := StepBooked(before, Run(rule, decl, rest), decl, key, ps[|ps| - 1]);
    }
  }

  lemma EmptyBalances(rule: Rule, timeout: real, from: real, start: real)
    requires rule.rate >= 0.0 && timeout > 0.0 && start < from
    ensures Book(rule, timeout, from, None, 0, Lives(0, from), start).Balanced()
  {
    GainLaws(0.0, 0.0, timeout);
    BudgetGrows(rule, 0, 0.0, 0.0);
  }

  /**
   Rate bound across element lifetimes: in any interval of `span` seconds the packets of one key that
   take a token number at most (floor(span / timeout) + 2) * burst + rate * span.
   */
  lemma RateBound<K>(rule: Rule, decl: Decl, ps: seq<Packet<K>>, key: K, from: real, span: real)
    requires rule.rate >= 0.0 && decl.timeout.Some? && decl.timeout.value > 0.0
    requires Ordered(ps) && span >= 0.0 && forall i :: 0 <= i < |ps| ==> ps[i].at <= from + span
    ensures Passes(rule, decl, ps, key, from) as real
         <= Gain(((span / decl.timeout.value).Floor + 2) as real, rule.burst as real) + Gain(span, rule.rate)
  {
    var start := if ps == [] then from - 1.0 else MinR(ps[0].at, from) - 1.0;
    var b := RunBooked(rule, decl, ps, key, from, start);
    assert b.now <= from + span;
    assert b.rule == rule && b.timeout == decl.timeout.value && b.passes == Passes(rule, decl, ps, key, from);
    BalancedBound(b, span);
  }

  /** What balanced books say about the passes since `from`. */
  lemma BalancedBound(b: Books, span: real)
    requires span >= 0.0 && b.now <= b.from + span
    ensures b.passes as real <= Gain(((span / b.timeout).Floor + 2) as real, b.rule.burst as real)
        + Gain(span, b.rule.rate)
  {
    LivesBounded(b.l.count, b.timeout, span, b.from, b.l.ends, b.now);
    var last := if b.bucket.Some? then b.bucket.value.last else b.now;
    BudgetGrows(b.rule, b.l.count + 1, MaxR(last, b.from) - b.from, span);
    GainLaws((b.l.count + 1) as real, ((span / b.timeout).Floor + 2) as real, b.rule.burst as real);
  }

  /** At most floor(span / timeout) + 1 lives can begin in `span` seconds. */
  lemma LivesBounded(count: nat, timeout: real, span: real, from: real, ends: real, now: real)
    requires timeout > 0.0 && span >= 0.0 && now <= from + span
    requires from + Gain(count as real, timeout) <= ends && (count > 0 ==> ends - timeout <= now)
    ensures count + 1 <= (span / timeout).Floor + 2
  {
    if count > 0 {
      GainLaws(count as real - 1.0, 1.0, timeout);
      assert count as real - 1.0 + 1.0 == count as real;
      QuotientBounds(count as real - 1.0, timeout, span);
    } else {
      QuotientBounds(0.0, timeout, span);
    }
  }

  lemma QuotientBounds(times: real, timeout: real, span: real)
    requires timeout > 0.0 && Gain(times, timeout) <= span
    ensures times <= span / timeout
  {
    var q := span / timeout;
    assert q * timeout == span;
    if times > q {
      assert (times - q) * timeout > 0.0;
    }
  }
}
