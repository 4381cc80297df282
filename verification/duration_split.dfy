/** Sequential splitting: cut a phase, then a script, at a time boundary.
    The chunk runs first and the remainder continues where it stops. */
module DurationSplitter {
  import opened Numbers
  import opened Phases
  import opened Scripts
  import opened Wrappers

  /** Exact rate of the ramp `a -> z` over `d` seconds, `t` seconds in. */
  function Interpolate(d: real, a: real, z: real, t: real): real
    requires d != 0.0
  {
    a + (z - a) * (t / d)
  }

  /** Exact share of `c` arrivals that falls in the first `t` of `d` seconds. */
  function Apportion(c: real, t: real, d: real): real
    requires d != 0.0
  {
    c * (t / d)
  }

  /** The exact rate at the cut lies between the ramp's endpoints. */
  lemma InterpolateBetween(d: real, a: real, z: real, t: real)
    requires 0.0 < t < d
    ensures Min(a, z) <= Interpolate(d, a, z, t) <= Max(a, z)
  {
    var f := t / d;
    FractionInside(t, d);
    if a <= z {
      ScaleWithin(z - a, f);
    } else {
      ScaleWithin(a - z, f);
      assert (z - a) * f == -((a - z) * f);
    }
  }

  /** Change of rate per second of a ramp. */
  function Slope(p: Phase): real
    requires p.Ramp? && p.duration != 0.0
  {
    (p.rampTo - p.arrivalRate) / p.duration
  }

  predicate SameShape(p: Phase, q: Phase) {
    || (p.Constant? && q.Constant?)
    || (p.Ramp? && q.Ramp?)
    || (p.Count? && q.Count?)
    || (p.Pause? && q.Pause?)
  }

  /** Cut a phase `t` seconds in: (chunk, remainder). A count is apportioned
      by the duration ratio (rounded, the remainder takes the rest); a ramp
      is cut at its rounded rate at `t`. */
  function SplitPhaseByDuration(p: Phase, t: real): (r: (Phase, Phase))
    requires 0.0 < t < PhaseDuration(p)
    ensures PhaseDuration(r.0) == t
    ensures PhaseDuration(r.0) + PhaseDuration(r.1) == PhaseDuration(p)
    ensures SameShape(p, r.0) && SameShape(p, r.1)
    ensures p.Constant? ==> r.0.arrivalRate == p.arrivalRate == r.1.arrivalRate
    ensures p.Count? ==>
              && r.0.arrivalCount + r.1.arrivalCount == p.arrivalCount
              && Whole(r.0.arrivalCount)
              && -0.5 < r.0.arrivalCount - Apportion(p.arrivalCount, t, p.duration) <= 0.5
    ensures p.Ramp? ==>
              && r.0.arrivalRate == p.arrivalRate
              && r.1.rampTo == p.rampTo
              && r.0.rampTo == r.1.arrivalRate
              && Whole(r.0.rampTo)
              && -0.5 < r.0.rampTo - Interpolate(p.duration, p.arrivalRate, p.rampTo, t) <= 0.5
  {
    match p
    case Pause(d) => (Pause(t), Pause(d - t))
    case Constant(d, a) => (Constant(t, a), Constant(d - t, a))
    case Count(d, c) =>
      var share := Apportion(c, t, d);
      var k := Round(share) as real;
      assert -0.5 < k - share <= 0.5;
      (Count(t, k), Count(d - t, c - k))
    case Ramp(d, a, z) =>
      var exact := Interpolate(d, a, z, t);
      var mid := Round(exact) as real;
      assert -0.5 < mid - exact <= 0.5;
      (Ramp(t, a, mid), Ramp(d - t, mid, z))
  }

  /** Splitting keeps a well-formed phase well-formed on both sides: no
      negative rate at the cut and no negative remainder count. */
  lemma SplitPhaseKeepsWellFormed(p: Phase, t: real)
    requires WellFormed(p)
    requires 0.0 < t < PhaseDuration(p)
    ensures WellFormed(SplitPhaseByDuration(p, t).0)
    ensures WellFormed(SplitPhaseByDuration(p, t).1)
  {
    match p
    case Ramp(d, a, z) =>
      InterpolateBetween(d, a, z, t);
      var mid := SplitPhaseByDuration(p, t).0.rampTo;
      assert mid > Interpolate(d, a, z, t) - 0.5;
      assert mid.Floor >= 0;
    case Count(d, c) =>
      CountShareWithin(c, t, d);
      var k := Round(Apportion(c, t, d));
      WholeInt(k);
      WholeDiff(c, k);
    case _ =>
  }

  /** The rounded share of a whole count lies between 0 and the count. */
  lemma CountShareWithin(c: real, t: real, d: real)
    requires c >= 0.0 && Whole(c) && 0.0 < t < d
    ensures 0 <= Round(Apportion(c, t, d)) && Round(Apportion(c, t, d)) as real <= c
  {
    FractionInside(t, d);
    ScaleWithin(c, t / d);
    var k := Round(Apportion(c, t, d));
    assert k as real <= c + 0.5;
    assert k <= c.Floor;
  }

  /** When the rate at the cut needs no rounding, both pieces of a ramp keep
      the original slope, so chunk followed by remainder is the same line. */
  lemma RampSplitKeepsSlope(p: Phase, t: real)
    requires p.Ramp? && 0.0 < t < p.duration
    requires Whole(Interpolate(p.duration, p.arrivalRate, p.rampTo, t))
    ensures Slope(SplitPhaseByDuration(p, t).0) == Slope(p)
    ensures Slope(SplitPhaseByDuration(p, t).1) == Slope(p)
  {
    var d, a, z := p.duration, p.arrivalRate, p.rampTo;
    var exact := Interpolate(d, a, z, t);
    RoundWhole(exact);
    var r := SplitPhaseByDuration(p, t);
    assert r.0.rampTo == exact;
    var m := (z - a) / d;
    assert exact == a + m * t;
    assert exact - a == m * t;
    assert (exact - a) / t == m;
    assert z - exact == m * (d - t);
    assert (z - exact) / (d - t) == m;
  }

  /** Walk the phases with `remaining` seconds left in the chunk: phases that
      fit go to the chunk, the phase that straddles the boundary is cut, and
      everything after the boundary goes to the remainder. */
  function SplitPhasesByDuration(ps: seq<Phase>, remaining: real): (r: (seq<Phase>, seq<Phase>))
    decreases |ps|
  {
    if ps == [] then ([], [])
    else if remaining <= 0.0 then ([], ps)
    else
      var d := PhaseDuration(ps[0]);
      if d <= remaining then
        var rest := SplitPhasesByDuration(ps[1..], remaining - d);
        ([ps[0]] + rest.0, rest.1)
      else
        var parts := SplitPhaseByDuration(ps[0], remaining);
        ([parts.0], [parts.1] + ps[1..])
  }

  predicate NonNegativeDurations(ps: seq<Phase>) {
    forall j :: 0 <= j < |ps| ==> PhaseDuration(ps[j]) >= 0.0
  }

  predicate PositiveDurations(ps: seq<Phase>) {
    forall j :: 0 <= j < |ps| ==> PhaseDuration(ps[j]) > 0.0
  }

  lemma {:induction false} TotalDurationNonNegative(ps: seq<Phase>)
    requires NonNegativeDurations(ps)
    ensures TotalDuration(ps) >= 0.0
  {
    if ps != [] {
      TotalDurationNonNegative(ps[1..]);
    }
  }

  /** Duration is conserved, and the chunk takes exactly the time left
      (or the whole script when it is shorter). */
  lemma {:induction false} SplitPhasesByDurationConserves(ps: seq<Phase>, remaining: real)
    requires NonNegativeDurations(ps)
    ensures var r := SplitPhasesByDuration(ps, remaining);
      && TotalDuration(r.0) + TotalDuration(r.1) == TotalDuration(ps)
      && (remaining >= 0.0 ==> TotalDuration(r.0) == Min(remaining, TotalDuration(ps)))
      && NonNegativeDurations(r.0) && NonNegativeDurations(r.1)
    decreases |ps|
  {
    if ps == [] {
    } else if remaining <= 0.0 {
      TotalDurationNonNegative(ps);
    } else {
      var d := PhaseDuration(ps[0]);
      TotalDurationNonNegative(ps[1..]);
      if d <= remaining {
        SplitPhasesByDurationConserves(ps[1..], remaining - d);
        var rest := SplitPhasesByDuration(ps[1..], remaining - d);
        assert ([ps[0]] + rest.0)[1..] == rest.0;
      } else {
        var parts := SplitPhaseByDuration(ps[0], remaining);
        assert ([parts.1] + ps[1..])[1..] == ps[1..];
        assert TotalDuration([parts.0]) == remaining;
      }
    }
  }

  /** Splitting keeps every phase well-formed. */
  lemma {:induction false} SplitPhasesByDurationKeepsWellFormed(ps: seq<Phase>, remaining: real)
    requires AllWellFormed(ps)
    ensures AllWellFormed(SplitPhasesByDuration(ps, remaining).0)
    ensures AllWellFormed(SplitPhasesByDuration(ps, remaining).1)
    decreases |ps|
  {
    if ps != [] && remaining > 0.0 {
      if PhaseDuration(ps[0]) <= remaining {
        SplitPhasesByDurationKeepsWellFormed(ps[1..], remaining - PhaseDuration(ps[0]));
      } else {
        SplitPhaseKeepsWellFormed(ps[0], remaining);
      }
    }
  }

  /** With whole-second phases and a whole-second limit, every piece
      lasts whole seconds too. */
  lemma {:induction false} SplitPhasesByDurationKeepsWhole(ps: seq<Phase>, remaining: real)
    requires WholeDurations(ps) && Whole(remaining)
    ensures WholeDurations(SplitPhasesByDuration(ps, remaining).0)
    ensures WholeDurations(SplitPhasesByDuration(ps, remaining).1)
    decreases |ps|
  {
    if ps != [] && remaining > 0.0 {
      var d := PhaseDuration(ps[0]);
      if d <= remaining {
        WholeDiff(remaining, d.Floor);
        SplitPhasesByDurationKeepsWhole(ps[1..], remaining - d);
        var rest := SplitPhasesByDuration(ps[1..], remaining - d);
        assert forall j :: 1 <= j < |rest.0| + 1 ==> ([ps[0]] + rest.0)[j] == rest.0[j - 1];
      } else {
        var parts := SplitPhaseByDuration(ps[0], remaining);
        WholeDiff(d, remaining.Floor);
        assert PhaseDuration(parts.1) == d - remaining;
        assert forall j :: 1 <= j < |ps| ==> ([parts.1] + ps[1..])[j] == ps[j];
      }
    }
  }

  /** A phase boundary that falls exactly on the limit cuts no phase: the
      chunk is the phases before it and the remainder the phases after. */
  lemma {:induction false} SplitAtPhaseBoundary(ps: seq<Phase>, k: nat, remaining: real)
    requires PositiveDurations(ps)
    requires k <= |ps|
    requires TotalDuration(ps[..k]) == remaining
    ensures SplitPhasesByDuration(ps, remaining) == (ps[..k], ps[k..])
    decreases k
  {
    if k == 0 {
      assert ps[..0] == [] && ps[0..] == ps;
    } else {
      assert ps[..k][1..] == ps[1..][..k - 1];
      TotalDurationNonNegative(ps[1..][..k - 1]);
      SplitAtPhaseBoundary(ps[1..], k - 1, remaining - PhaseDuration(ps[0]));
      assert ps[..k] == [ps[0]] + ps[1..][..k - 1];
      assert ps[k..] == ps[1..][k - 1..];
    }
  }

  /** Only the phase that straddles the limit is cut, at the time left. */
  lemma {:induction false} SplitStraddlingPhase(ps: seq<Phase>, k: nat, remaining: real)
    requires PositiveDurations(ps)
    requires k < |ps|
    requires TotalDuration(ps[..k]) < remaining < TotalDuration(ps[..k]) + PhaseDuration(ps[k])
    ensures var cut := SplitPhaseByDuration(ps[k], remaining - TotalDuration(ps[..k]));
      SplitPhasesByDuration(ps, remaining) == (ps[..k] + [cut.0], [cut.1] + ps[k + 1..])
    decreases k
  {
    if k == 0 {
      var cut := SplitPhaseByDuration(ps[0], remaining);
      assert ps[..0] + [cut.0] == [cut.0];
      assert ps[0 + 1..] == ps[1..];
    } else {
      assert ps[..k][1..] == ps[1..][..k - 1];
      TotalDurationNonNegative(ps[1..][..k - 1]);
      var d0 := PhaseDuration(ps[0]);
      assert TotalDuration(ps[..k]) == d0 + TotalDuration(ps[1..][..k - 1]);
      assert ps[1..][k - 1] == ps[k];
      SplitStraddlingPhase(ps[1..], k - 1, remaining - d0);
      var cut := SplitPhaseByDuration(ps[k], remaining - TotalDuration(ps[..k]));
      var rest := SplitPhasesByDuration(ps[1..], remaining - d0);
      assert rest == (ps[1..][..k - 1] + [cut.0], [cut.1] + ps[1..][k..]);
      assert ps[..k] + [cut.0] == [ps[0]] + (ps[1..][..k - 1] + [cut.0]);
      assert ps[k + 1..] == ps[1..][k..];
    }
  }

  /** `splitScriptByDurationInSeconds`: the remainder is a future
      generation, so it does not inherit the start time. */
  function SplitScriptByDuration(s: Script, maxSeconds: real): (r: (Script, Script))
    ensures r.0 == s.(phases := r.0.phases)
    ensures r.1 == s.(phases := r.1.phases, start := None)
    ensures (r.0.phases, r.1.phases) == SplitPhasesByDuration(s.phases, maxSeconds)
  {
    var parts := SplitPhasesByDuration(s.phases, maxSeconds);
    (s.(phases := parts.0), s.(phases := parts.1, start := None))
  }
}
