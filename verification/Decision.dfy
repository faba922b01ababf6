/** Evidence to score to level: how each kind of evidence contributes. */
module Scoring {
  import opened Prelude

  datatype Pattern =
    RepeatedConnections | HighFrequency | Burst | Persistence | DestinationDiversity | RepeatedFailures
    | TemporalPattern | Scanning | SlowRateDos | Flood

  datatype Settings = Settings(
    low: real, medium: real, high: real, critical: real,
    knownWeight: real, anomalyWeight: real, behaviorWeight: real, signatureWeight: real,
    points: Pattern -> real, mlCanEnforce: bool)
  {
    /** What configuration loading checks. */
    ghost predicate Checked() {
      && 0.0 <= low < medium < high < critical <= 100.0
      && knownWeight >= 0.0 && anomalyWeight >= 0.0 && behaviorWeight >= 0.0 && signatureWeight >= 0.0
      && forall p :: points(p) >= 0.0
    }
  }

  type Config = c: Settings | c.Checked()
    ghost witness Settings(25.0, 50.0, 75.0, 90.0, 60.0, 15.0, 80.0, 75.0, p => 0.0, false)

  type Confidence = c: real | 0.0 <= c <= 1.0

  /** `attack` is whether the predicted class is an attack label. */
  datatype Known = Known(attack: bool, confidence: Confidence)

  /** The two models' evidence, and the deterministic evidence. */
  datatype Ml = Ml(known: Option<Known>, anomaly: Option<bool>)
  datatype Plain = Plain(patterns: Option<seq<Pattern>>, signature: Option<Confidence>)

  function KnownPart(c: Config, ml: Ml): real {
    if ml.known.Some? && ml.known.value.attack then c.knownWeight * ml.known.value.confidence else 0.0
  }

  function AnomalyPart(c: Config, ml: Ml): real {
    if ml.anomaly == Some(true) then c.anomalyWeight else 0.0
  }

  function PointSum(c: Config, patterns: seq<Pattern>): real {
    if patterns == [] then 0.0 else c.points(patterns[0]) + PointSum(c, patterns[1..])
  }

  function BehaviorPart(c: Config, plain: Plain): real {
    if plain.patterns.Some? && plain.patterns.value != []
    then AtMost(c.behaviorWeight, PointSum(c, plain.patterns.value)) else 0.0
  }

  function SignaturePart(c: Config, plain: Plain): real {
    if plain.signature.Some? then c.signatureWeight * plain.signature.value else 0.0
  }

  function AtMost(a: real, b: real): real { if a <= b then a else b }

  function Total(c: Config, ml: Ml, plain: Plain): real {
    AtMost(100.0, KnownPart(c, ml) + AnomalyPart(c, ml) + BehaviorPart(c, plain) + SignaturePart(c, plain))
  }

  function PlainTotal(c: Config, plain: Plain): real {
    AtMost(100.0, BehaviorPart(c, plain) + SignaturePart(c, plain))
  }

  datatype Level = Low | Medium | High | Critical
  {
    function Rank(): nat { match this case Low => 0 case Medium => 1 case High => 2 case Critical => 3 }
  }

  function LevelOf(c: Config, score: real): Level {
    if score >= c.critical then Critical
    else if score >= c.high then High
    else if score >= c.medium then Medium
    else Low
  }

  lemma {:induction false} PointSumNonNegative(c: Config, patterns: seq<Pattern>)
    ensures PointSum(c, patterns) >= 0.0
  {
    if patterns != [] {
      PointSumNonNegative(c, patterns[1..]);
    }
  }

  /** No part is negative, so the deterministic evidence alone never scores, nor ranks, above all of it. */
  lemma PlainBelowTotal(c: Config, ml: Ml, plain: Plain)
    ensures 0.0 <= PlainTotal(c, plain) <= Total(c, ml, plain) <= 100.0
    ensures LevelOf(c, PlainTotal(c, plain)).Rank() <= LevelOf(c, Total(c, ml, plain)).Rank()
  {
    if plain.patterns.Some? {
      PointSumNonNegative(c, plain.patterns.value);
    }
    assert plain.signature.Some? ==> c.signatureWeight * plain.signature.value >= 0.0;
    assert ml.known.Some? ==> c.knownWeight * ml.known.value.confidence >= 0.0;
  }

  /** Deterministic evidence that scores at all names a pattern or a signature. */
  lemma PlainScoreHasEvidence(c: Config, plain: Plain)
    requires PlainTotal(c, plain) > 0.0
    ensures plain.signature.Some? || (plain.patterns.Some? && plain.patterns.value != [])
  {
  }
}

/** Level to action: the ML ceiling and the evidence-maturity gate. */
module Decision {
  import opened Prelude
  import opened Scoring
  import opened OrderedDict

  datatype Action = Allow | Monitor | RateLimit | Block
  {
    function Rank(): nat { match this case Allow => 0 case Monitor => 1 case RateLimit => 2 case Block => 3 }

    predicate Gated() { this == RateLimit || this == Block }
  }

  function ActionFor(level: Level): Action {
    match level case Low => Allow case Medium => Monitor case High => RateLimit case Critical => Block
  }

  type Source = nat

  datatype Assessment = Assessment(level: Level, enforceable: Option<Level>, ml: Ml, plain: Plain, source: Source)

  function Assess(c: Config, ml: Ml, plain: Plain, source: Source): Assessment {
    Assessment(LevelOf(c, Total(c, ml, plain)),
               if c.mlCanEnforce then None else Some(LevelOf(c, PlainTotal(c, plain))), ml, plain, source)
  }

  function Ceiling(a: Assessment): Option<Action> {
    if a.enforceable.None? then None
    else
      var allowed := ActionFor(a.enforceable.value);
      Some(if ActionFor(a.level).Rank() >= Monitor.Rank() && allowed.Rank() < Monitor.Rank() then Monitor else allowed)
  }

  /** The action before the maturity gate. */
  function Capped(a: Assessment): Action {
    var action := ActionFor(a.level);
    var ceiling := Ceiling(a);
    if ceiling.Some? && action.Rank() > ceiling.value.Rank() then ceiling.value else action
  }

  /** A confident attack classification, a protocol signature, or a behavioural pattern. */
  predicate MatureOnItsOwn(a: Assessment, threshold: real) {
    || (a.ml.known.Some? && a.ml.known.value.attack && a.ml.known.value.confidence >= threshold)
    || a.plain.signature.Some?
    || (a.plain.patterns.Some? && a.plain.patterns.value != [])
  }

  // -------------------------------------------------------------- maturity tracker

  /** Each listed source carries its number of calls, up to `windows`; nothing else is counted. */
  ghost predicate Counts(sources: Dict<Source, nat>, calls: map<Source, nat>, windows: nat) {
    && WellFormed(sources)
    && (forall i :: 0 <= i < |sources| ==> sources[i].0 in calls && sources[i].1 == Min(calls[sources[i].0], windows))
    && (forall s :: s in calls ==> Has(sources, s))
  }

  /** Taking one entry out keeps the count of the others. */
  lemma CountsWithout(sources: Dict<Source, nat>, calls: map<Source, nat>, windows: nat, k: nat)
    requires Counts(sources, calls, windows) && k < |sources|
    ensures Counts(sources[..k] + sources[k + 1..], calls - {sources[k].0}, windows)
  {
    var rest := sources[..k] + sources[k + 1..];
    forall i | 0 <= i < |rest| ensures rest[i] == sources[if i < k then i else i + 1] {
    }
    forall s | s in calls && s != sources[k].0 ensures Has(rest, s) {
      assert Has(sources, s);
      var i :| 0 <= i < |sources| && sources[i].0 == s;
      assert rest[if i < k then i else i - 1].0 == s;
    }
  }

  lemma CountsWith(sources: Dict<Source, nat>, calls: map<Source, nat>, windows: nat, source: Source, n: nat)
    requires Counts(sources, calls, windows) && source !in calls
    ensures Counts(sources + [(source, Min(n, windows))], calls[source := n], windows)
  {
    var after: Dict<Source, nat> := sources + [(source, Min(n, windows))];
    assert forall i :: 0 <= i < |sources| ==> after[i] == sources[i] && sources[i].0 != source;
    forall s | s in calls[source := n] ensures Has(after, s) {
      if s == source {
        assert after[|sources|].0 == s;
      } else {
        assert Has(sources, s);
        var i :| 0 <= i < |sources| && sources[i].0 == s;
        assert after[i].0 == s;
      }
    }
  }

  /** Counts, per source, the windows that were elevated but not mature, in least-recently-seen order. */
  class EvidenceMaturityTracker {
    const windows: nat
    const maxSources: nat
    var sources: seq<(Source, nat)>
    /** Calls for each tracked source since it entered. */
    ghost var calls: map<Source, nat>

    ghost predicate Valid()
      reads this
    {
      windows >= 1 && maxSources >= 1 && |sources| <= maxSources && Counts(sources, calls, windows)
    }

    constructor (windows: nat, maxSources: nat)
      requires windows >= 1 && maxSources >= 1
      ensures Valid() && sources == [] && this.windows == windows && this.maxSources == maxSources
    {
      this.windows, this.maxSources, sources, calls := windows, maxSources, [], map[];
    }

    /** Where a source is listed, or the length when it is not. */
    method Find(source: Source) returns (k: nat)
      ensures k <= |sources| && (k < |sources| ==> sources[k].0 == source)
      ensures k == |sources| ==> forall i :: 0 <= i < |sources| ==> sources[i].0 != source
    {
      k := 0;
      while k < |sources|
        invariant k <= |sources| && forall i :: 0 <= i < k ==> sources[i].0 != source
      {
        if sources[k].0 == source {
          return;
        }
        k := k + 1;
      }
    }

    /**
     One more weak window. Consistent exactly when `windows` of them have been seen for this source since it
     was last evicted; only the source seen longest ago is evicted, and only to make room for a new one.
     */
    method Observe(source: Source) returns (consistent: bool)
      requires Valid()
      modifies this
      ensures Valid()
      ensures source in calls && calls[source] == (if source in old(calls) then old(calls)[source] else 0) + 1
      ensures consistent <==> calls[source] >= windows
      ensures sources != [] && sources[|sources| - 1].0 == source
      ensures forall s :: s in old(calls) && s != source ==>
                (s in calls && calls[s] == old(calls)[s])
                || (s !in calls && |old(sources)| == maxSources && source !in old(calls) && s == old(sources)[0].0)
      ensures forall s :: s in calls && s != source ==> s in old(calls)
    {
      ghost var n := if source in calls then calls[source] else 0;
      var count := Vacate(source);
      CountsWith(sources, calls, windows, source, n + 1);
      count := Min(count + 1, windows);
      sources := sources + [(source, count)];
      calls := calls[source := n + 1];
      consistent := count >= windows;
    }

    method RemoveAt(k: nat)
      requires Valid() && k < |sources|
      modifies this
      ensures Valid() && |sources| == |old(sources)| - 1 && calls == old(calls) - {old(sources)[k].0}
    {
      CountsWithout(sources, calls, windows, k);
      sources, calls := sources[..k] + sources[k + 1..], calls - {sources[k].0};
    }

    /** Takes the source out of the list, or evicts the oldest to make room; the count it had. */
    method Vacate(source: Source) returns (count: nat)
      requires Valid()
      modifies this
      ensures Counts(sources, calls, windows) && |sources| < maxSources
      ensures count == if source in old(calls) then Min(old(calls)[source], windows) else 0
      ensures calls == old(calls) - {if source in old(calls) || |old(sources)| < maxSources then source
                                     else old(sources)[0].0}
      ensures source !in calls
    {
      count := 0;
      var k := Find(source);
      assert source in calls <==> k < |sources|;
      if k < |sources| {
        count := sources[k].1;
        RemoveAt(k);
      } else if |sources| >= maxSources {
        RemoveAt(0);
      }
    }
  }

  // ---------------------------------------------------------------------- decision

  /** The action, given the tracker's answer should it be asked. */
  function Gate(a: Assessment, threshold: real, consistent: bool): Action {
    if Capped(a).Gated() && !MatureOnItsOwn(a, threshold) && !consistent then Monitor else Capped(a)
  }

  predicate AsksTracker(a: Assessment, threshold: real) {
    Capped(a).Gated() && !MatureOnItsOwn(a, threshold)
  }

  method Decide(a: Assessment, tracker: EvidenceMaturityTracker?, threshold: real) returns (action: Action)
    requires tracker != null ==> tracker.Valid()
    modifies tracker
    ensures tracker != null ==> tracker.Valid()
    ensures !AsksTracker(a, threshold) ==>
      && action == Capped(a)
      && (tracker != null ==> tracker.sources == old(tracker.sources) && tracker.calls == old(tracker.calls))
    ensures AsksTracker(a, threshold) && tracker == null ==> action == Monitor
    ensures AsksTracker(a, threshold) && tracker != null ==>
              a.source in tracker.calls && action == Gate(a, threshold, tracker.calls[a.source] >= tracker.windows)
  {
    action := Capped(a);
    if action.Gated() && !MatureOnItsOwn(a, threshold) {
      var consistent := false;
      if tracker != null {
        consistent := tracker.Observe(a.source);
      }
      if !consistent {
        action := Monitor;
      }
    }
  }

  /** What the deterministic evidence alone asks for, made visible when all of it reaches MEDIUM. */
  ghost function Entitled(c: Config, ml: Ml, plain: Plain): Action {
    var alone := ActionFor(LevelOf(c, PlainTotal(c, plain)));
    if alone.Rank() >= Monitor.Rank() then alone
    else if LevelOf(c, Total(c, ml, plain)).Rank() >= Medium.Rank() then Monitor
    else Allow
  }

  /** With the ceiling on, the action is the entitled one, the gate never downgrades it and never asks its tracker. */
  lemma CeilingExact(c: Config, ml: Ml, plain: Plain, source: Source, threshold: real)
    requires !c.mlCanEnforce
    ensures var a := Assess(c, ml, plain, source);
      Capped(a) == Entitled(c, ml, plain) && !AsksTracker(a, threshold)
  {
    PlainBelowTotal(c, ml, plain);
    if PlainTotal(c, plain) > 0.0 {
      PlainScoreHasEvidence(c, plain);
    }
  }

  /** The score of the evidence, before it is cut at 100: pattern points up to their cap and the weighted signature. */
  ghost function PlainSum(c: Config, plain: Plain): real {
    (match plain.patterns
     case None => 0.0
     case Some(patterns) =>
       if PointSum(c, patterns) <= c.behaviorWeight then PointSum(c, patterns) else c.behaviorWeight)
    + match plain.signature
      case None => 0.0
      case Some(confidence) => c.signatureWeight * confidence
  }

  /** The same with the models: the weighted confidence in an attack, and the weight of an anomaly. */
  ghost function FullSum(c: Config, ml: Ml, plain: Plain): real {
    (match ml.known
     case None => 0.0
     case Some(known) => if known.attack then c.knownWeight * known.confidence else 0.0)
    + (match ml.anomaly
       case None => 0.0
       case Some(anomalous) => if anomalous then c.anomalyWeight else 0.0)
    + PlainSum(c, plain)
  }

  /** Both scores are these sums, cut at 100, which is above no threshold. */
  lemma ScoresAreSums(c: Config, ml: Ml, plain: Plain)
    ensures Total(c, ml, plain) == if FullSum(c, ml, plain) <= 100.0 then FullSum(c, ml, plain) else 100.0
    ensures PlainTotal(c, plain) == if PlainSum(c, plain) <= 100.0 then PlainSum(c, plain) else 100.0
  {
  }

  /** With the ceiling on, the whole decision from the two scores. */
  lemma ActionFromScores(c: Config, ml: Ml, plain: Plain, source: Source, threshold: real, consistent: bool)
    requires !c.mlCanEnforce
    ensures
      var action := Gate(Assess(c, ml, plain, source), threshold, consistent);
      var full, alone := FullSum(c, ml, plain), PlainSum(c, plain);
      && (action == Block <==> alone >= c.critical)
      && (action == RateLimit <==> c.high <= alone < c.critical)
      && (action == Monitor <==> alone < c.high && full >= c.medium)
      && (action == Allow <==> full < c.medium)
  {
    CeilingExact(c, ml, plain, source, threshold);
    PlainBelowTotal(c, ml, plain);
    ScoresAreSums(c, ml, plain);
  }

  /** A confident attack, a signature or a pattern: evidence that needs no repetition. */
  ghost predicate Mature(ml: Ml, plain: Plain, threshold: real) {
    || (exists known :: ml.known == Some(known) && known.attack && known.confidence >= threshold)
    || plain.signature != None
    || (exists patterns :: plain.patterns == Some(patterns) && |patterns| > 0)
  }

  /** With the ceiling off, the full score decides, and what is neither mature nor consistent is only monitored. */
  lemma ActionWithoutCeiling(c: Config, ml: Ml, plain: Plain, source: Source, threshold: real, consistent: bool)
    requires c.mlCanEnforce
    ensures
      var action := Gate(Assess(c, ml, plain, source), threshold, consistent);
      var full, sure := FullSum(c, ml, plain), Mature(ml, plain, threshold) || consistent;
      && (action == Block <==> full >= c.critical && sure)
      && (action == RateLimit <==> c.high <= full < c.critical && sure)
      && (action == Monitor <==> full >= c.medium && (full < c.high || !sure))
      && (action == Allow <==> full < c.medium)
  {
    ScoresAreSums(c, ml, plain);
    assert MatureOnItsOwn(Assess(c, ml, plain, source), threshold) <==> Mature(ml, plain, threshold);
  }

  /** Behaviour without a protocol signature blocks exactly when both its cap and its points reach CRITICAL. */
  lemma BehaviorAloneBlocks(c: Config, ml: Ml, patterns: seq<Pattern>, source: Source)
    requires !c.mlCanEnforce
    ensures Capped(Assess(c, ml, Plain(Some(patterns), None), source)) == Block
            <==> c.behaviorWeight >= c.critical && PointSum(c, patterns) >= c.critical
  {
    CeilingExact(c, ml, Plain(Some(patterns), None), source, 0.0);
  }

  /** A protocol signature alone blocks exactly when its weighted confidence reaches CRITICAL. */
  lemma SignatureAloneBlocks(c: Config, ml: Ml, confidence: Confidence, source: Source)
    requires !c.mlCanEnforce
    ensures Capped(Assess(c, ml, Plain(None, Some(confidence)), source)) == Block
            <==> c.signatureWeight * confidence >= c.critical
  {
    CeilingExact(c, ml, Plain(None, Some(confidence)), source, 0.0);
  }

  /** ML evidence can never bring about, prevent or change a RATE_LIMIT or a BLOCK. */
  lemma MlNonInterference(
    c: Config, ml: Ml, ml': Ml, plain: Plain, source: Source, threshold: real, consistent: bool, consistent': bool)
    requires !c.mlCanEnforce
    ensures
      var action := Gate(Assess(c, ml, plain, source), threshold, consistent);
      var action' := Gate(Assess(c, ml', plain, source), threshold, consistent');
      action.Gated() || action'.Gated() ==> action == action'
  {
    CeilingExact(c, ml, plain, source, threshold);
    CeilingExact(c, ml', plain, source, threshold);
  }

  /** With the ceiling off, immature evidence can ask the tracker exactly when these weights reach HIGH. */
  ghost predicate ImmatureReachesHigh(c: Config, threshold: real) {
    c.anomalyWeight >= c.high || c.knownWeight * threshold + c.anomalyWeight > c.high
  }

  lemma TrackerReachable(c: Config, threshold: real)
    requires c.mlCanEnforce && 0.0 <= threshold <= 1.0
    ensures (exists ml, plain, source :: AsksTracker(Assess(c, ml, plain, source), threshold))
            <==> ImmatureReachesHigh(c, threshold)
  {
    forall ml, plain, source | AsksTracker(Assess(c, ml, plain, source), threshold)
      ensures ImmatureReachesHigh(c, threshold)
    {
      AskingIsImmature(c, ml, plain, source, threshold);
    }
    if ImmatureReachesHigh(c, threshold) {
      var ml := ReachingEvidence(c, threshold);
      assert AsksTracker(Assess(c, ml, Plain(None, None), 0), threshold);
    }
  }

  lemma AskingIsImmature(c: Config, ml: Ml, plain: Plain, source: Source, threshold: real)
    requires c.mlCanEnforce && AsksTracker(Assess(c, ml, plain, source), threshold)
    ensures ImmatureReachesHigh(c, threshold)
  {
    var anomaly := AnomalyPart(c, ml);
    assert anomaly <= c.anomalyWeight;
    if ml.known.Some? && ml.known.value.attack {
      Outweighs(c.knownWeight, ml.known.value.confidence, threshold, anomaly, c.high);
    }
  }

  /** More of a weight makes up for what is missing. */
  lemma Outweighs(w: real, a: real, b: real, rest: real, bar: real)
    requires w >= 0.0 && a < b && w * a + rest >= bar
    ensures rest >= bar || w * b + rest > bar
  {
    if rest < bar {
      assert w != 0.0;
      assert w * b == w * a + w * (b - a);
    }
  }

  lemma ReachingEvidence(c: Config, threshold: real) returns (ml: Ml)
    requires c.mlCanEnforce && 0.0 <= threshold <= 1.0 && ImmatureReachesHigh(c, threshold)
    ensures AsksTracker(Assess(c, ml, Plain(None, None), 0), threshold)
  {
    ml := Ml(None, Some(true));
    if c.anomalyWeight < c.high {
      var need := c.high - c.anomalyWeight;
      var confidence := Share(c.knownWeight, need, threshold);
      ml := Ml(Some(Known(true, confidence)), Some(true));
      assert KnownPart(c, ml) == need;
    }
    assert Total(c, ml, Plain(None, None)) >= c.high;
  }

  /** The part of `w` that makes up `need`, when some part does. */
  lemma Share(w: real, need: real, part: real) returns (share: real)
    requires w >= 0.0 && 0.0 < need < w * part
    ensures 0.0 < share < part && w * share == need
  {
    share := need / w;
    assert w * share == need;
    Quotient(w, share, part);
  }

  lemma Quotient(w: real, a: real, b: real)
    requires 0.0 <= w && 0.0 < w * a < w * b
    ensures 0.0 < a < b
  {
    assert a >= b ==> w * (a - b) >= 0.0;
  }
}
