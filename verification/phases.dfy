/** Phase and script queries: the duration and peak request rate of one
    load phase, and of an ordered list of phases, with the index of the
    first invalid phase reported explicitly instead of as a negated number. */
module Phases {
  import opened Numbers

  /** One segment of a load profile. `Invalid` stands for an object that
      matches none of the recognised shapes (the `{}` of the tests). */
  datatype Phase =
    | Constant(duration: real, arrivalRate: real)
    | Ramp(duration: real, arrivalRate: real, rampTo: real)
    | Count(duration: real, arrivalCount: real)
    | Pause(pause: real)
    | Invalid

  /** Seconds covered by a phase; -1 marks an invalid phase. */
  function PhaseDuration(p: Phase): real {
    match p
    case Constant(d, _) => d
    case Ramp(d, _, _) => d
    case Count(d, _) => d
    case Pause(d) => d
    case Invalid => -1.0
  }

  /** Peak arrivals per second of a phase; -1 marks an invalid phase.
      A count over zero seconds has no rate and is reported invalid. */
  function PhaseRps(p: Phase): real {
    match p
    case Ramp(_, a, z) => Max(a, z)
    case Constant(_, a) => a
    case Count(d, c) => if d != 0.0 then c / d else -1.0
    case Pause(_) => 0.0
    case Invalid => -1.0
  }

  /** Arrivals per second `t` seconds into a phase. */
  function RateAt(p: Phase, t: real): real {
    match p
    case Constant(_, a) => a
    case Ramp(d, a, z) => if d != 0.0 then a + (z - a) * (t / d) else a
    case Count(d, c) => if d != 0.0 then c / d else 0.0
    case Pause(_) => 0.0
    case Invalid => 0.0
  }

  /** The peak rate is the most the phase ever asks for, and it asks for
      it at one of its two ends. */
  lemma PhaseRpsIsPeak(p: Phase, t: real)
    requires PhaseRps(p) >= 0.0 && 0.0 <= t <= PhaseDuration(p)
    ensures RateAt(p, t) <= PhaseRps(p)
    ensures PhaseDuration(p) > 0.0 ==>
              PhaseRps(p) == RateAt(p, 0.0) || PhaseRps(p) == RateAt(p, PhaseDuration(p))
  {
    match p
    case Ramp(d, a, z) =>
      if d > 0.0 {
        var f := t / d;
        FractionWithin(t, d);
        if a <= z {
          ScaleWithin(z - a, f);
        } else {
          ScaleWithin(a - z, f);
          assert (z - a) * f == -((a - z) * f);
        }
        assert d / d == 1.0;
      }
    case _ =>
  }

  /** A phase as the loader is expected to produce it: non-negative
      durations and rates, a whole non-negative count over a positive
      duration. */
  predicate WellFormed(p: Phase) {
    match p
    case Constant(d, a) => d >= 0.0 && a >= 0.0
    case Ramp(d, a, z) => d >= 0.0 && a >= 0.0 && z >= 0.0
    case Count(d, c) => d > 0.0 && c >= 0.0 && Whole(c)
    case Pause(d) => d >= 0.0
    case Invalid => false
  }

  predicate AllWellFormed(ps: seq<Phase>) {
    forall j :: 0 <= j < |ps| ==> WellFormed(ps[j])
  }

  predicate NoInvalid(ps: seq<Phase>) {
    forall j :: 0 <= j < |ps| ==> !ps[j].Invalid?
  }

  /** Every phase lasts a whole number of seconds. */
  predicate WholeDurations(ps: seq<Phase>) {
    forall j :: 0 <= j < |ps| ==> Whole(PhaseDuration(ps[j]))
  }

  /** Plain sum of the phase durations, sentinels included. */
  function TotalDuration(ps: seq<Phase>): real {
    if ps == [] then 0.0 else PhaseDuration(ps[0]) + TotalDuration(ps[1..])
  }

  /** Result of a script-level query: a value, or the index of the first
      phase for which the phase-level query gave a negative sentinel. */
  datatype Query = Ok(value: real) | FirstInvalid(index: nat)

  /** The engine's accumulating loop over the phases, from index `i` on. */
  function DurationFrom(ps: seq<Phase>, i: nat, acc: real): (r: Query)
    requires i <= |ps|
    decreases |ps| - i
    ensures r.FirstInvalid? ==>
              && i <= r.index < |ps|
              && PhaseDuration(ps[r.index]) < 0.0
              && forall j :: i <= j < r.index ==> PhaseDuration(ps[j]) >= 0.0
    ensures r.Ok? ==>
              && (forall j :: i <= j < |ps| ==> PhaseDuration(ps[j]) >= 0.0)
              && r.value == acc + TotalDuration(ps[i..])
  {
    if i == |ps| then Ok(acc)
    else if PhaseDuration(ps[i]) < 0.0 then FirstInvalid(i)
    else
      assert ps[i..][1..] == ps[i + 1..];
      DurationFrom(ps, i + 1, acc + PhaseDuration(ps[i]))
  }

  /** Duration of a script: the sum of its phase durations, or the index
      of its first invalid phase. */
  function ScriptDuration(ps: seq<Phase>): (r: Query)
    ensures r.FirstInvalid? ==>
              && r.index < |ps|
              && PhaseDuration(ps[r.index]) < 0.0
              && forall j :: 0 <= j < r.index ==> PhaseDuration(ps[j]) >= 0.0
    ensures r.Ok? ==>
              && (forall j :: 0 <= j < |ps| ==> PhaseDuration(ps[j]) >= 0.0)
              && r.value == TotalDuration(ps)
  {
    assert ps[0..] == ps;
    DurationFrom(ps, 0, 0.0)
  }

  /** The engine's running-maximum loop over the phases, from index `i` on. */
  function RpsFrom(ps: seq<Phase>, i: nat, acc: real): (r: Query)
    requires i <= |ps|
    decreases |ps| - i
    ensures r.FirstInvalid? ==>
              && i <= r.index < |ps|
              && PhaseRps(ps[r.index]) < 0.0
              && forall j :: i <= j < r.index ==> PhaseRps(ps[j]) >= 0.0
    ensures r.Ok? ==>
              && acc <= r.value
              && (forall j :: i <= j < |ps| ==> 0.0 <= PhaseRps(ps[j]) <= r.value)
              && (r.value == acc || exists j :: i <= j < |ps| && PhaseRps(ps[j]) == r.value)
  {
    if i == |ps| then Ok(acc)
    else if PhaseRps(ps[i]) < 0.0 then FirstInvalid(i)
    else RpsFrom(ps, i + 1, Max(acc, PhaseRps(ps[i])))
  }

  /** Peak rate of a script: the largest phase rate (0 for a script of
      pauses only), or the index of its first invalid phase. */
  function ScriptRps(ps: seq<Phase>): (r: Query)
    ensures r.FirstInvalid? ==>
              && r.index < |ps|
              && PhaseRps(ps[r.index]) < 0.0
              && forall j :: 0 <= j < r.index ==> PhaseRps(ps[j]) >= 0.0
    ensures r.Ok? ==>
              && (forall j :: 0 <= j < |ps| ==> 0.0 <= PhaseRps(ps[j]) <= r.value)
              && (r.value == 0.0 || exists j :: 0 <= j < |ps| && PhaseRps(ps[j]) == r.value)
  {
    RpsFrom(ps, 0, 0.0)
  }

  /** The engine's "query at most the limit" check. The sentinel of an
      invalid script is never positive, so such a script counts as within. */
  predicate WithinDuration(ps: seq<Phase>, limit: real) {
    match ScriptDuration(ps)
    case Ok(v) => v <= limit
    case FirstInvalid(_) => true
  }

  predicate WithinRate(ps: seq<Phase>, limit: real) {
    match ScriptRps(ps)
    case Ok(v) => v <= limit
    case FirstInvalid(_) => true
  }

  /** Every phase of the list runs at or below the rate limit. */
  predicate AllAtMost(ps: seq<Phase>, limit: real) {
    forall j :: 0 <= j < |ps| ==> PhaseRps(ps[j]) <= limit
  }

  /** A list whose every phase is at or below a non-negative limit passes
      the engine's rate check. */
  lemma AllAtMostIsWithinRate(ps: seq<Phase>, limit: real)
    requires limit >= 0.0
    requires AllAtMost(ps, limit)
    ensures WithinRate(ps, limit)
  {
    var r := ScriptRps(ps);
    if r.Ok? && r.value != 0.0 {
      var j :| 0 <= j < |ps| && PhaseRps(ps[j]) == r.value;
    }
  }

  /** Well-formed phases are valid for both queries. */
  lemma WellFormedQueriesOk(ps: seq<Phase>)
    requires AllWellFormed(ps)
    ensures ScriptDuration(ps).Ok? && ScriptRps(ps).Ok?
  {
  }

  lemma TotalDurationAppend(a: seq<Phase>, b: seq<Phase>)
    ensures TotalDuration(a + b) == TotalDuration(a) + TotalDuration(b)
  {
    if a == [] {
      assert a + b == b;
    } else {
      assert (a + b)[1..] == a[1..] + b;
      TotalDurationAppend(a[1..], b);
    }
  }
}
