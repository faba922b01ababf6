/** What a history of polls says: streaks of presence, counter deltas, fill levels. */
module PollHistory {
  import opened Prelude
  import opened NftNames

  datatype Mode = Observe | Enforce
  type Offence = (Code, Mac)
  type Location = nat

  /** What one poll read: an error, a missing table, or the kernel's state. */
  datatype Reading =
    | Failed
    | TableAbsent
    | Read(offenders: seq<(Mac, int)>, modes: map<Guard, Mode>, counters: map<Guard, nat>,
           fills: map<Location, (nat, nat)>)

  datatype Poll = Poll(now: int, reading: Reading)

  /** A reported pair that names a unicast device and a known code. */
  predicate Names(pair: (Mac, int), o: Offence) {
    IsUnicast(pair.0) && CodeOf(pair.1) == Some(o.0) && pair.0 == o.1
  }

  ghost predicate Listed(offenders: seq<(Mac, int)>, o: Offence) {
    exists i :: 0 <= i < |offenders| && Names(offenders[i], o)
  }

  ghost predicate Present(r: Reading, o: Offence) {
    r.Read? && Listed(r.offenders, o)
  }

  /** The successful polls since the last one that found no table. */
  ghost function Since(h: seq<Poll>): seq<Poll> {
    if h == [] then []
    else
      var last, before := h[|h| - 1], h[..|h| - 1];
      match last.reading
      case TableAbsent => []
      case Failed => Since(before)
      case Read(_, _, _, _) => Since(before) + [last]
  }

  /** How many of them in a row, ending with the last, saw the offence. */
  ghost function Streak(polls: seq<Poll>, o: Offence): nat {
    if polls == [] || !Present(polls[|polls| - 1].reading, o) then 0 else 1 + Streak(polls[..|polls| - 1], o)
  }

  lemma {:induction false} StreakExact(polls: seq<Poll>, o: Offence, n: nat)
    ensures n <= Streak(polls, o)
            <==> n <= |polls| && forall i :: |polls| - n <= i < |polls| ==> Present(polls[i].reading, o)
  {
    if n > 0 && polls != [] {
      var before, last := polls[..|polls| - 1], |polls| - 1;
      StreakExact(before, o, n - 1);
      assert forall i :: 0 <= i < last ==> before[i] == polls[i];
      if n <= Streak(polls, o) {
        forall i | |polls| - n <= i < |polls| ensures Present(polls[i].reading, o) {
          assert i < last ==> Present(before[i].reading, o);
        }
      }
    }
  }

  // ------------------------------------------------------------------------ counters

  /** The readings of one guard's counter. */
  ghost function Values(h: seq<Poll>, g: Guard): seq<nat> {
    if h == [] then []
    else
      var last := h[|h| - 1].reading;
      Values(h[..|h| - 1], g) + if last.Read? && g in last.counters then [last.counters[g]] else []
  }

  ghost function LastValue(values: seq<nat>): Option<nat> {
    if values == [] then None else Some(values[|values| - 1])
  }

  /** What a reading adds: all of it at first or after a reset, else the increase. */
  function Delta(previous: Option<nat>, value: nat): nat {
    if previous.None? || value < previous.value then value else value - previous.value
  }

  ghost function DeltaSum(values: seq<nat>): nat {
    if values == [] then 0
    else
      DeltaSum(values[..|values| - 1]) + Delta(LastValue(values[..|values| - 1]), values[|values| - 1])
  }

  /** The readings just before each reset, added up. */
  ghost function LostToResets(values: seq<nat>): nat {
    if |values| < 2 then 0
    else
      LostToResets(values[..|values| - 1])
      + if values[|values| - 1] < values[|values| - 2] then values[|values| - 2] else 0
  }

  /** The deltas add up to the last reading plus the reading before each reset. */
  lemma {:induction false} DeltasTelescope(values: seq<nat>)
    ensures DeltaSum(values) == LostToResets(values) + if values == [] then 0 else values[|values| - 1]
  {
    if values != [] {
      DeltasTelescope(values[..|values| - 1]);
    }
  }

  /** Hits of one guard over a list of reports; a report that does not name the guard adds none. */
  ghost function HitSum(reports: seq<map<Guard, nat>>, g: Guard): nat {
    if reports == [] then 0
    else
      var last := reports[|reports| - 1];
      HitSum(reports[..|reports| - 1], g) + if g in last then last[g] else 0
  }

  /** One more poll and its report. */
  lemma HitsGrow(h: seq<Poll>, poll: Poll, reports: seq<map<Guard, nat>>, hits: map<Guard, nat>, g: Guard)
    requires HitSum(reports, g) == DeltaSum(Values(h, g))
    requires if poll.reading.Read? && g in poll.reading.counters
             then g in hits && hits[g] == Delta(LastValue(Values(h, g)), poll.reading.counters[g])
             else g !in hits
    ensures HitSum(reports + [hits], g) == DeltaSum(Values(h + [poll], g))
  {
    var values, after := Values(h, g), Values(h + [poll], g);
    assert (reports + [hits])[..|reports|] == reports && (h + [poll])[..|h|] == h;
    assert after != values ==> after[..|values|] == values;
  }

  // --------------------------------------------------------------------- fill levels

  /** How full a set is; one without a declared size is not. */
  function FillRatio(fill: (nat, nat)): (ratio: real)
    ensures fill.1 == 0 ==> ratio == 0.0
    ensures fill.1 > 0 ==> ratio * fill.1 as real == fill.0 as real
  {
    if fill.1 == 0 then 0.0 else fill.0 as real / fill.1 as real
  }

  predicate Crowded(fill: (nat, nat), ratio: real) { FillRatio(fill) > ratio }

  /** A set is crowded exactly when it has a size and holds more than that part of it. */
  lemma CrowdedExactly(fill: (nat, nat), ratio: real)
    requires ratio >= 0.0
    ensures Crowded(fill, ratio) <==> fill.1 > 0 && fill.0 as real > ratio * fill.1 as real
  {
    if fill.1 > 0 {
      Scaled(FillRatio(fill), ratio, fill.1 as real);
    }
  }

  lemma Scaled(a: real, b: real, size: real)
    requires size > 0.0
    ensures a > b <==> a * size > b * size
  {
    if a > b {
      assert (a - b) * size > 0.0;
    } else {
      assert (b - a) * size >= 0.0;
    }
  }

  /** The largest fill ratio, zero when there is none. */
  ghost predicate IsFullest(fills: map<Location, (nat, nat)>, ratio: real) {
    && (forall at :: at in fills ==> FillRatio(fills[at]) <= ratio)
    && (ratio == 0.0 || exists at :: at in fills && FillRatio(fills[at]) == ratio)
  }

  method FullestRatio(fills: map<Location, (nat, nat)>) returns (ratio: real)
    ensures ratio >= 0.0 && IsFullest(fills, ratio)
  {
    ratio := 0.0;
    var left := fills.Keys;
    while left != {}
      invariant left <= fills.Keys && ratio >= 0.0
      invariant forall at :: at in fills && at !in left ==> FillRatio(fills[at]) <= ratio
      invariant ratio == 0.0 || exists at :: at in fills && FillRatio(fills[at]) == ratio
    {
      var at :| at in left;
      if FillRatio(fills[at]) > ratio {
        ratio := FillRatio(fills[at]);
      }
      left := left - {at};
    }
  }

  /** Whether the last reading of a location's fill level was crowded. */
  ghost predicate LastCrowded(h: seq<Poll>, at: Location, ratio: real) {
    h != [] && var last := h[|h| - 1].reading;
      if last.Read? && at in last.fills then Crowded(last.fills[at], ratio) else LastCrowded(h[..|h| - 1], at, ratio)
  }
}

/** The kernel offender poller. */
module KernelPollers {
  import opened Prelude
  import opened NftNames
  import opened PollHistory

  datatype Stage = Observed | New | Sustained
  datatype Episode = Episode(startedAt: int, polls: nat)
  datatype EvidenceId = EvidenceId(offence: Offence, startedAt: int, mode: Mode, stage: Stage)
  datatype Evidence = Evidence(id: EvidenceId, guard: Guard, sustainedPolls: nat, observedAt: int)

  datatype Result = Result(
    evidence: map<Offence, Evidence>, guardHits: map<Guard, nat>, offenderCount: nat, maxSetFillRatio: real,
    alerts: set<Location>, tablePresent: bool, error: bool)

  function ModeOf(modes: map<Guard, Mode>, code: Code): Mode {
    if OffenderGuard(code) in modes then modes[OffenderGuard(code)] else Observe
  }

  function StageOf(mode: Mode, polls: nat, bar: nat): Stage {
    if mode == Observe then Observed else if polls >= bar then Sustained else New
  }

  function EvidenceOf(o: Offence, e: Episode, modes: map<Guard, Mode>, bar: nat, now: int): Evidence {
    var mode := ModeOf(modes, o.0);
    Evidence(EvidenceId(o, e.startedAt, mode, StageOf(mode, e.polls, bar)), OffenderGuard(o.0), e.polls, now)
  }

  ghost predicate Shows(
    e: Evidence, o: Offence, episode: Option<Episode>, modes: map<Guard, Mode>, bar: nat, now: int) {
    episode.Some? && e == EvidenceOf(o, episode.value, modes, bar, now)
  }

  /** The episode in progress: how long, and when the first of its polls was. */
  ghost function EpisodeOf(polls: seq<Poll>, o: Offence): Option<Episode> {
    var n := Streak(polls, o);
    StreakFits(polls, o);
    if n == 0 then None else Some(Episode(polls[|polls| - n].now, n))
  }

  lemma StreakFits(polls: seq<Poll>, o: Offence)
    ensures Streak(polls, o) <= |polls|
  {
    StreakExact(polls, o, Streak(polls, o));
  }

  ghost function Find<K, V>(m: map<K, V>, key: K): Option<V> {
    if key in m then Some(m[key]) else None
  }

  /** The episode after one more successful poll. */
  ghost function Continue(before: Option<Episode>, present: bool, now: int): Option<Episode> {
    if !present then None
    else if before.None? then Some(Episode(now, 1))
    else Some(Episode(before.value.startedAt, before.value.polls + 1))
  }

  lemma EpisodeContinues(polls: seq<Poll>, poll: Poll, o: Offence)
    ensures EpisodeOf(polls + [poll], o) == Continue(EpisodeOf(polls, o), Present(poll.reading, o), poll.now)
  {
    var after := polls + [poll];
    assert after[..|polls|] == polls;
    StreakFits(polls, o);
    if Present(poll.reading, o) {
      var n := Streak(polls, o);
      assert Streak(after, o) == n + 1;
      assert n > 0 ==> after[|after| - (n + 1)] == polls[|polls| - n];
    }
  }

  ghost function NextEpisode(before: Option<Episode>, poll: Poll, o: Offence): Option<Episode> {
    match poll.reading
    case Failed => before
    case TableAbsent => None
    case Read(_, _, _, _) => Continue(before, Present(poll.reading, o), poll.now)
  }

  ghost function NextValue(before: Option<nat>, r: Reading, g: Guard): Option<nat> {
    if r.Read? && g in r.counters then Some(r.counters[g]) else before
  }

  ghost predicate NextCrowded(before: bool, r: Reading, at: Location, ratio: real) {
    if r.Read? && at in r.fills then Crowded(r.fills[at], ratio) else before
  }

  /** What one more poll makes of the history's verdicts. */
  lemma StepHistory(h: seq<Poll>, poll: Poll, ratio: real)
    ensures forall o :: EpisodeOf(Since(h + [poll]), o) == NextEpisode(EpisodeOf(Since(h), o), poll, o)
    ensures forall g :: LastValue(Values(h + [poll], g)) == NextValue(LastValue(Values(h, g)), poll.reading, g)
    ensures forall at ::
      LastCrowded(h + [poll], at, ratio) == NextCrowded(LastCrowded(h, at, ratio), poll.reading, at, ratio)
  {
    assert (h + [poll])[..|h|] == h;
    forall o ensures poll.reading.Read? ==>
      EpisodeOf(Since(h + [poll]), o) == Continue(EpisodeOf(Since(h), o), Present(poll.reading, o), poll.now) {
      EpisodeContinues(Since(h), poll, o);
    }
  }

  /** An id says "sustained" only once the offence was seen by the configured number of successful polls in a row. */
  lemma SustainedNeverEarly(h: seq<Poll>, o: Offence, modes: map<Guard, Mode>, bar: nat, now: int)
    requires EpisodeOf(Since(h), o).Some?
    ensures
      var id := EvidenceOf(o, EpisodeOf(Since(h), o).value, modes, bar, now).id;
      id.stage == Sustained <==>
        && OffenderGuard(o.0) in modes && modes[OffenderGuard(o.0)] == Enforce
        && bar <= |Since(h)| && forall i :: |Since(h)| - bar <= i < |Since(h)| ==> Present(Since(h)[i].reading, o)
  {
    StreakExact(Since(h), o, bar);
  }

  datatype Fields = Fields(episodes: map<Offence, Episode>, lastCounters: map<Guard, nat>, warned: set<Location>)

  ghost predicate Agrees(f: Fields, h: seq<Poll>, ratio: real) {
    && (forall o :: Find(f.episodes, o) == EpisodeOf(Since(h), o))
    && (forall g :: Find(f.lastCounters, g) == LastValue(Values(h, g)))
    && (forall at :: at in f.warned <==> LastCrowded(h, at, ratio))
  }

  /** What a successful poll must report. */
  ghost predicate Reports(
    r: Result, reading: Reading, now: int, bar: nat, ratio: real, before: seq<Poll>, after: seq<Poll>)
    requires reading.Read?
  {
    && (forall o :: o in r.evidence <==> Present(reading, o))
    && (forall o :: o in r.evidence ==> Shows(r.evidence[o], o, EpisodeOf(Since(after), o), reading.modes, bar, now))
    && r.offenderCount == |reading.offenders| && IsFullest(reading.fills, r.maxSetFillRatio)
    && r.guardHits.Keys == reading.counters.Keys
    && (forall g :: g in reading.counters ==>
          r.guardHits[g] == Delta(LastValue(Values(before, g)), reading.counters[g]))
    && (forall at :: at in r.alerts <==>
          at in reading.fills && Crowded(reading.fills[at], ratio) && !LastCrowded(before, at, ratio))
  }

  /** What a successful poll does to the fields. */
  ghost predicate Changes(r: Result, reading: Reading, now: int, bar: nat, ratio: real, f: Fields, f': Fields)
    requires reading.Read?
  {
    && (forall o :: Find(f'.episodes, o) == Continue(Find(f.episodes, o), Listed(reading.offenders, o), now))
    && (forall o :: o in r.evidence <==> Listed(reading.offenders, o))
    && (forall o :: o in r.evidence ==> Shows(r.evidence[o], o, Find(f'.episodes, o), reading.modes, bar, now))
    && r.offenderCount == |reading.offenders| && IsFullest(reading.fills, r.maxSetFillRatio)
    && r.guardHits.Keys == reading.counters.Keys
    && (forall g :: g in reading.counters ==> r.guardHits[g] == Delta(Find(f.lastCounters, g), reading.counters[g]))
    && (forall g :: Find(f'.lastCounters, g) == NextValue(Find(f.lastCounters, g), reading, g))
    && (forall at :: at in f'.warned <==> NextCrowded(at in f.warned, reading, at, ratio))
    && (forall at :: at in r.alerts <==> at in reading.fills && Crowded(reading.fills[at], ratio) && at !in f.warned)
  }

  lemma ChangesReport(r: Result, reading: Reading, now: int, bar: nat, ratio: real, f: Fields, f': Fields, h: seq<Poll>)
    requires reading.Read? && Agrees(f, h, ratio) && Changes(r, reading, now, bar, ratio, f, f')
    ensures Agrees(f', h + [Poll(now, reading)], ratio)
    ensures Reports(r, reading, now, bar, ratio, h, h + [Poll(now, reading)])
  {
    var poll := Poll(now, reading);
    StepHistory(h, poll, ratio);
    forall o ensures Find(f'.episodes, o) == EpisodeOf(Since(h + [poll]), o) {
      assert Find(f.episodes, o) == EpisodeOf(Since(h), o);
    }
    forall g ensures Find(f'.lastCounters, g) == LastValue(Values(h + [poll], g)) {
      assert Find(f.lastCounters, g) == LastValue(Values(h, g));
    }
  }

  /** The hits reported for each guard so far are the deltas of all its readings. */
  ghost predicate Accounted(reports: seq<map<Guard, nat>>, h: seq<Poll>) {
    forall g :: HitSum(reports, g) == DeltaSum(Values(h, g))
  }

  lemma StillAccounted(reports: seq<map<Guard, nat>>, h: seq<Poll>, poll: Poll, hits: map<Guard, nat>)
    requires Accounted(reports, h)
    requires hits.Keys == if poll.reading.Read? then poll.reading.counters.Keys else {}
    requires forall g :: g in hits ==> hits[g] == Delta(LastValue(Values(h, g)), poll.reading.counters[g])
    ensures Accounted(reports + [hits], h + [poll])
  {
    forall g ensures HitSum(reports + [hits], g) == DeltaSum(Values(h + [poll], g)) {
      HitsGrow(h, poll, reports, hits, g);
    }
  }

  /** All hits ever reported for a guard: its last reading plus the reading before each reset. */
  lemma HitsTelescope(reports: seq<map<Guard, nat>>, h: seq<Poll>, g: Guard)
    requires Accounted(reports, h)
    ensures
      var values := Values(h, g);
      HitSum(reports, g) == LostToResets(values) + if values == [] then 0 else values[|values| - 1]
  {
    DeltasTelescope(Values(h, g));
  }

  class KernelPoller {
    const sustainedPolls: nat
    const warningRatio: real
    var episodes: map<Offence, Episode>
    var lastCounters: map<Guard, nat>
    var warned: set<Location>
    /** Every poll, and the guard hits it reported. */
    ghost var history: seq<Poll>
    ghost var reports: seq<map<Guard, nat>>

    /** The fields, and all hits reported, are what the history of polls says they should be. */
    ghost predicate Valid()
      reads this
    {
      Agrees(Fields(episodes, lastCounters, warned), history, warningRatio) && Accounted(reports, history)
    }

    constructor (sustainedPolls: nat, warningRatio: real)
      ensures Valid() && history == [] && reports == []
      ensures this.sustainedPolls == sustainedPolls && this.warningRatio == warningRatio
    {
      this.sustainedPolls, this.warningRatio := sustainedPolls, warningRatio;
      episodes, lastCounters, warned, history, reports := map[], map[], {}, [], [];
    }

    /**
     One poll. Evidence names exactly the offences seen, each with the number of successful polls in a row
     that saw it since the table was last missing and the time of the first of them; deltas and alerts are
     those of the history.
     */
    method Tick(reading: Reading, now: int) returns (r: Result)
      requires Valid()
      modifies this
      ensures Valid() && history == old(history) + [Poll(now, reading)] && reports == old(reports) + [r.guardHits]
      ensures r.error == reading.Failed? && r.tablePresent == !reading.TableAbsent?
      ensures !reading.Read? ==> r.evidence == map[] && r.guardHits == map[] && r.alerts == {}
      ensures !reading.Read? ==> r.offenderCount == 0 && r.maxSetFillRatio == 0.0
      ensures reading.Read? ==> Reports(r, reading, now, sustainedPolls, warningRatio, old(history), history)
    {
      ghost var poll := Poll(now, reading);
      StepHistory(history, poll, warningRatio);
      if reading.Read? {
        ghost var before := Fields(episodes, lastCounters, warned);
        r := ReadKernel(reading, now);
        ChangesReport(r, reading, now, sustainedPolls, warningRatio, before, Fields(episodes, lastCounters, warned),
                      history);
      } else {
        r := Result(map[], map[], 0, 0.0, {}, reading.Failed?, reading.Failed?);
        if reading.TableAbsent? {
          episodes := map[];
        }
      }
      StillAccounted(reports, history, poll, r.guardHits);
      history, reports := history + [poll], reports + [r.guardHits];
    }

    method ReadKernel(reading: Reading, now: int) returns (r: Result)
      requires reading.Read?
      modifies this`episodes, this`lastCounters, this`warned
      ensures r.tablePresent && !r.error
      ensures Changes(r, reading, now, sustainedPolls, warningRatio,
                      Fields(old(episodes), old(lastCounters), old(warned)), Fields(episodes, lastCounters, warned))
    {
      var evidence := Track(reading.offenders, reading.modes, now);
      var hits := Deltas(reading.counters);
      var alerts := FillAlerts(reading.fills);
      var fullest := FullestRatio(reading.fills);
      r := Result(evidence, hits, |reading.offenders|, fullest, alerts, true, false);
    }

    /** Ends the episodes of the offences that are gone and counts a poll for those that are there. */
    method Track(
      offenders: seq<(Mac, int)>, modes: map<Guard, Mode>, now: int) returns (evidence: map<Offence, Evidence>)
      modifies this`episodes
      ensures forall o :: Find(episodes, o) == Continue(Find(old(episodes), o), Listed(offenders, o), now)
      ensures forall o :: o in evidence <==> Listed(offenders, o)
      ensures forall o :: o in evidence ==> Shows(evidence[o], o, Find(episodes, o), modes, sustainedPolls, now)
    {
      var present := Seen(offenders);
      var kept := map o | o in episodes && o in present :: episodes[o];
      episodes, evidence := Advance(kept, present, modes, sustainedPolls, now);
    }

    method Deltas(counters: map<Guard, nat>) returns (deltas: map<Guard, nat>)
      modifies this`lastCounters
      ensures deltas.Keys == counters.Keys
      ensures forall g :: g in counters ==> deltas[g] == Delta(Find(old(lastCounters), g), counters[g])
      ensures forall g ::
        Find(lastCounters, g) == (if g in counters then Some(counters[g]) else Find(old(lastCounters), g))
    {
      var before := lastCounters;
      deltas := map[];
      var left := counters.Keys;
      while left != {}
        invariant left <= counters.Keys && deltas.Keys == counters.Keys - left
        invariant forall g :: g in deltas ==> deltas[g] == Delta(Find(before, g), counters[g])
        invariant forall g :: Find(lastCounters, g) == if g in deltas then Some(counters[g]) else Find(before, g)
      {
        var g :| g in left;
        var previous := if g in lastCounters then Some(lastCounters[g]) else None;
        deltas := deltas[g := Delta(previous, counters[g])];
        lastCounters := lastCounters[g := counters[g]];
        left := left - {g};
      }
    }

    /** One alert when a set becomes crowded, re-armed once it drains. */
    method FillAlerts(fills: map<Location, (nat, nat)>) returns (alerts: set<Location>)
      modifies this`warned
      ensures forall at :: at in warned <==> if at in fills then Crowded(fills[at], warningRatio) else at in old(warned)
      ensures forall at :: at in alerts <==> at in fills && Crowded(fills[at], warningRatio) && at !in old(warned)
    {
      var before, ratio := warned, warningRatio;
      alerts := {};
      var left := fills.Keys;
      while left != {}
        invariant left <= fills.Keys
        invariant forall at :: at in warned <==>
          if at in fills && at !in left then Crowded(fills[at], ratio) else at in before
        invariant forall at :: at in alerts <==>
          at in fills && at !in left && Crowded(fills[at], ratio) && at !in before
      {
        var at :| at in left;
        if Crowded(fills[at], ratio) && at !in warned {
          warned := warned + {at};
          alerts := alerts + {at};
        } else if !Crowded(fills[at], ratio) {
          warned := warned - {at};
        }
        left := left - {at};
      }
    }
  }

  /** The offences listed, other pairs skipped. */
  method Seen(offenders: seq<(Mac, int)>) returns (present: set<Offence>)
    ensures forall o :: o in present <==> Listed(offenders, o)
  {
    present := {};
    for i := 0 to |offenders|
      invariant forall o :: o in present <==> Listed(offenders[..i], o)
    {
      ListedExtends(offenders, i);
      var (mac, raw) := offenders[i];
      var code := CodeOf(raw);
      if code.Some? && IsUnicast(mac) {
        present := present + {(code.value, mac)};
      }
    }
    assert offenders[..|offenders|] == offenders;
  }

  lemma ListedExtends(offenders: seq<(Mac, int)>, i: nat)
    requires i < |offenders|
    ensures forall o :: Listed(offenders[..i + 1], o) <==> Listed(offenders[..i], o) || Names(offenders[i], o)
  {
    forall o ensures Listed(offenders[..i + 1], o) <==> Listed(offenders[..i], o) || Names(offenders[i], o) {
      var a, b := offenders[..i + 1], offenders[..i];
      if Names(offenders[i], o) {
        assert a[i] == offenders[i];
      }
      if Listed(b, o) {
        var j :| 0 <= j < |b| && Names(b[j], o);
        assert a[j] == b[j];
      }
      if Listed(a, o) {
        var j :| 0 <= j < |a| && Names(a[j], o);
        assert j < i ==> b[j] == a[j];
      }
    }
  }

  method Advance(kept: map<Offence, Episode>, present: set<Offence>, modes: map<Guard, Mode>, bar: nat, now: int)
    returns (episodes: map<Offence, Episode>, evidence: map<Offence, Evidence>)
    requires kept.Keys <= present
    ensures forall o :: Find(episodes, o) == Continue(Find(kept, o), o in present, now)
    ensures evidence.Keys == present && episodes.Keys == present
    ensures forall o :: o in evidence ==> evidence[o] == EvidenceOf(o, episodes[o], modes, bar, now)
  {
    episodes, evidence := kept, map[];
    var left := present;
    while left != {}
      invariant left <= present && evidence.Keys == present - left && episodes.Keys == kept.Keys + (present - left)
      invariant forall o :: o in episodes ==>
        Some(episodes[o]) == if o in left then Find(kept, o) else Continue(Find(kept, o), true, now)
      invariant forall o :: o in evidence ==> evidence[o] == EvidenceOf(o, episodes[o], modes, bar, now)
    {
      var o :| o in left;
      var episode := if o in episodes then episodes[o] else Episode(now, 0);
      episode := episode.(polls := episode.polls + 1);
      episodes := episodes[o := episode];
      evidence := evidence[o := EvidenceOf(o, episode, modes, bar, now)];
      left := left - {o};
    }
  }
}
