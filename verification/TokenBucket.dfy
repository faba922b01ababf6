/** The kernel's `limit rate over R burst B`: one token bucket, and what exactly it refuses. */
module TokenBucket {
  import opened Prelude

  function MinR(a: real, b: real): real { if a <= b then a else b }

  function MaxR(a: real, b: real): real { if a >= b then a else b }

  /** `expiresAt` is None for an element without a timeout. */
  datatype Bucket = Bucket(tokens: real, last: real, expiresAt: Option<real>)

  /** Tokens that arrive in `span` seconds. */
  function Gain(span: real, rate: real): real { span * rate }

  lemma GainLaws(a: real, b: real, rate: real)
    ensures Gain(a + b, rate) == Gain(a, rate) + Gain(b, rate)
    ensures Gain(0.0, rate) == 0.0
    ensures a <= b && rate >= 0.0 ==> Gain(a, rate) <= Gain(b, rate)
  {
    if a <= b && rate >= 0.0 {
      assert (b - a) * rate >= 0.0;
    }
  }

  /** Refill for the time that passed; a clock that steps back refills nothing. */
  function Refill(b: Bucket, rate: real, burst: nat, at: real): Bucket {
    b.(tokens := MinR(burst as real, b.tokens + Gain(MaxR(at - b.last, 0.0), rate)), last := MaxR(b.last, at))
  }

  /** Refill, then take a token if there is one. */
  function Take(b: Bucket, rate: real, burst: nat, at: real): (Bucket, bool) {
    var full := Refill(b, rate, burst, at);
    if full.tokens >= 1.0 then (full.(tokens := full.tokens - 1.0), true) else (full, false)
  }

  function Fresh(burst: nat, at: real, expiresAt: Option<real>): Bucket {
    Bucket(burst as real, at, expiresAt)
  }

  // ---------------------------------------------------------------- a run of arrivals

  /** The bucket after arrivals `0..j`, created full by the first one. */
  function After(ats: seq<real>, rate: real, burst: nat, j: nat): Bucket
    requires j < |ats|
  {
    var before := if j == 0 then Fresh(burst, ats[0], None) else After(ats, rate, burst, j - 1);
    Take(before, rate, burst, ats[j]).0
  }

  predicate Passed(ats: seq<real>, rate: real, burst: nat, j: nat)
    requires j < |ats|
  {
    var before := if j == 0 then Fresh(burst, ats[0], None) else After(ats, rate, burst, j - 1);
    Take(before, rate, burst, ats[j]).1
  }

  /** Packets passed among arrivals `i..j-1`. */
  function CountPassed(ats: seq<real>, rate: real, burst: nat, i: nat, j: nat): nat
    requires i <= j <= |ats|
  {
    if i == j then 0
    else CountPassed(ats, rate, burst, i, j - 1) + if Passed(ats, rate, burst, j - 1) then 1 else 0
  }

  /** The running maximum of the arrival times. */
  function Clock(ats: seq<real>, j: nat): real
    requires j < |ats|
  {
    if j == 0 then ats[0] else MaxR(Clock(ats, j - 1), ats[j])
  }

  /** Tokens on hand when arrival `j` asks for one. */
  function Level(ats: seq<real>, rate: real, burst: nat, j: nat): real
    requires j < |ats|
  {
    if j == 0 then burst as real
    else MinR(burst as real, After(ats, rate, burst, j - 1).tokens + Gain(Clock(ats, j) - Clock(ats, j - 1), rate))
  }

  lemma {:induction false} BucketTracksLevel(ats: seq<real>, rate: real, burst: nat, j: nat)
    requires j < |ats|
    ensures After(ats, rate, burst, j).last == Clock(ats, j)
    ensures Passed(ats, rate, burst, j) <==> Level(ats, rate, burst, j) >= 1.0
    ensures After(ats, rate, burst, j).tokens == Level(ats, rate, burst, j) - if Passed(ats, rate, burst, j) then 1.0
        else 0.0
  {
    GainLaws(0.0, 0.0, rate);
    if j > 0 {
      BucketTracksLevel(ats, rate, burst, j - 1);
      assert MaxR(ats[j] - Clock(ats, j - 1), 0.0) == Clock(ats, j) - Clock(ats, j - 1);
    } else {
      assert MaxR(ats[0] - ats[0], 0.0) == 0.0;
    }
  }

  /** What the i-th arrival leaves for the j-th: a full burst, plus the refill since, minus what passed. */
  function Allowance(ats: seq<real>, rate: real, burst: nat, i: nat, j: nat): real
    requires i <= j < |ats|
  {
    burst as real + Gain(Clock(ats, j) - Clock(ats, i), rate) - CountPassed(ats, rate, burst, i, j) as real
  }

  lemma AllowanceStep(ats: seq<real>, rate: real, burst: nat, i: nat, j: nat)
    requires i <= j && j + 1 < |ats|
    ensures Allowance(ats, rate, burst, i, j + 1)
         == Allowance(ats, rate, burst, i, j) + Gain(Clock(ats, j + 1) - Clock(ats, j), rate)
            - if Passed(ats, rate, burst, j) then 1.0 else 0.0
  {
    var a, b, c := Clock(ats, i), Clock(ats, j), Clock(ats, j + 1);
    GainLaws(b - a, c - b, rate);
    assert (b - a) + (c - b) == c - a;
  }

  lemma SelfAllowance(ats: seq<real>, rate: real, burst: nat, j: nat)
    requires j < |ats|
    ensures Allowance(ats, rate, burst, j, j) == burst as real
  {
    GainLaws(0.0, 0.0, rate);
    assert Clock(ats, j) - Clock(ats, j) == 0.0;
  }

  /** The level is the least allowance over all earlier arrivals. */
  lemma {:induction false} LevelIsLeastAllowance(ats: seq<real>, rate: real, burst: nat, j: nat) returns (tight: nat)
    requires j < |ats|
    ensures forall i :: 0 <= i <= j ==> Level(ats, rate, burst, j) <= Allowance(ats, rate, burst, i, j)
    ensures tight <= j && Level(ats, rate, burst, j) == Allowance(ats, rate, burst, tight, j)
  {
    if j == 0 {
      tight := 0;
      SelfAllowance(ats, rate, burst, 0);
    } else {
      var before := LevelIsLeastAllowance(ats, rate, burst, j - 1);
      BucketTracksLevel(ats, rate, burst, j - 1);
      SelfAllowance(ats, rate, burst, j);
      forall i | 0 <= i <= j ensures Level(ats, rate, burst, j) <= Allowance(ats, rate, burst, i, j) {
        if i < j {
          AllowanceStep(ats, rate, burst, i, j - 1);
        }
      }
      AllowanceStep(ats, rate, burst, before, j - 1);
      tight := if Level(ats, rate, burst, j) == burst as real then j else before;
    }
  }

  /** More than `burst + rate * t` packets would have passed since some arrival, `t` ago. */
  ghost predicate Exceeds(ats: seq<real>, rate: real, burst: nat, i: nat, j: nat)
    requires i <= j < |ats|
  {
    CountPassed(ats, rate, burst, i, j) as real + 1.0 > burst as real + Gain(Clock(ats, j) - Clock(ats, i), rate)
  }

  /** A packet is refused if and only if passing it would exceed the rate over some window ending now. */
  lemma RefusedExactlyWhen(ats: seq<real>, rate: real, burst: nat, j: nat)
    requires j < |ats|
    ensures !Passed(ats, rate, burst, j) <==> exists i :: 0 <= i <= j && Exceeds(ats, rate, burst, i, j)
  {
    BucketTracksLevel(ats, rate, burst, j);
    var tight := LevelIsLeastAllowance(ats, rate, burst, j);
    if !Passed(ats, rate, burst, j) {
      assert Exceeds(ats, rate, burst, tight, j);
    }
    forall i | 0 <= i <= j && Exceeds(ats, rate, burst, i, j) ensures !Passed(ats, rate, burst, j) {
      assert Level(ats, rate, burst, j) <= Allowance(ats, rate, burst, i, j);
    }
  }
}
