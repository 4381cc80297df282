/** Parallel splitting: cut a phase, then a script, at a rate ceiling. The
    chunk and the remainder run side by side over the same seconds, so a
    side with nothing to do is padded with a pause of matching length. */
module RateSplitter {
  import opened Wrappers
  import opened Numbers
  import opened Phases
  import opened IntersectionMath
  import opened Scripts

  /** A ramp whose ends are equal is a constant rate: drop its `rampTo`. */
  function Normalize(p: Phase): (q: Phase)
    ensures q.Ramp? ==> q.arrivalRate != q.rampTo
    ensures PhaseDuration(q) == PhaseDuration(p) && PhaseRps(q) == PhaseRps(p)
    ensures p.Ramp? && p.arrivalRate == p.rampTo ==> q == Constant(p.duration, p.arrivalRate)
    ensures !(p.Ramp? && p.arrivalRate == p.rampTo) ==> q == p
  {
    if p.Ramp? && p.arrivalRate == p.rampTo then Constant(p.duration, p.arrivalRate) else p
  }

  /** Normalizing changes how a phase is written, never what it asks for:
      at every instant the normalized phase asks for the same rate, and
      normalizing twice is normalizing once. */
  lemma NormalizeKeepsRate(p: Phase, t: real)
    ensures RateAt(Normalize(p), t) == RateAt(p, t)
    ensures Normalize(Normalize(p)) == Normalize(p)
  {
    if p.Ramp? && p.arrivalRate == p.rampTo && p.duration != 0.0 {
      assert (p.rampTo - p.arrivalRate) * (t / p.duration) == 0.0;
    }
  }

  function RampOrConstant(d: real, a: real, z: real): Phase {
    Normalize(Ramp(d, a, z))
  }

  /** Seconds into the ramp at which it crosses `m`. */
  function CrossingTime(d: real, a: real, z: real, m: real): real
    requires a != z
  {
    Intersection(Ramp(d, a, z), m).value.x
  }

  /** A ramp that crosses the ceiling once, cut at the rounded crossing.
      Below the ceiling the chunk ramps and the remainder pauses; above it
      the chunk holds the ceiling and the remainder ramps the excess, whose
      low end is raised to 1 arrival per second. When the part above the
      ceiling rounds away to nothing (at the end of a rising ramp, at the
      start of a falling one), the excess is spread over the whole phase
      instead of being lost in a zero-second phase. */
  function SplitCrossingRamp(d: real, a: real, z: real, m: real): (r: (seq<Phase>, seq<Phase>))
    requires a != z
  {
    var cut := Round(CrossingTime(d, a, z, m)) as real;
    if a < z then
      if cut >= d then
        ([RampOrConstant(d, Max(a, 1.0), m)], [RampOrConstant(d, 1.0, z - m)])
      else
        ([Ramp(cut, a, m), Constant(d - cut, m)], [Pause(cut), RampOrConstant(d - cut, 1.0, z - m)])
    else if cut <= 0.0 then
      ([RampOrConstant(d, m, Max(z, 1.0))], [RampOrConstant(d, a - m, 1.0)])
    else
      ([Constant(cut, m), Ramp(d - cut, m, z)], [RampOrConstant(cut, a - m, 1.0), Pause(d - cut)])
  }

  /** Chunk and remainder line up phase by phase, second for second. */
  predicate Aligned(r: (seq<Phase>, seq<Phase>)) {
    |r.0| == |r.1| && forall i :: 0 <= i < |r.0| ==> PhaseDuration(r.0[i]) == PhaseDuration(r.1[i])
  }

  /** A constant rate above the ceiling runs the ceiling in the chunk and
      the excess in the remainder. */
  function SplitConstant(d: real, a: real, m: real): (r: (seq<Phase>, seq<Phase>))
    ensures |r.0| == |r.1| == 1
  {
    if a <= m then ([Constant(d, a)], [Pause(d)])
    else ([Constant(d, m)], [Constant(d, a - m)])
  }

  /** A fixed count above the ceiling gives the chunk the ceiling's share of
      the arrivals and the remainder the rest. */
  function SplitCount(d: real, c: real, m: real): (r: (seq<Phase>, seq<Phase>))
    ensures |r.0| == |r.1| == 1
  {
    if PhaseRps(Count(d, c)) <= m then ([Count(d, c)], [Pause(d)])
    else ([Count(d, m * d)], [Count(d, c - m * d)])
  }

  /** A true ramp: wholly below the ceiling, wholly above it, or crossing. */
  function SplitRamp(d: real, a: real, z: real, m: real): (r: (seq<Phase>, seq<Phase>))
    requires a != z
    ensures |r.0| == |r.1| && 1 <= |r.0| <= 2
  {
    if Max(a, z) <= m then ([Ramp(d, a, z)], [Pause(d)])
    else if Min(a, z) >= m then ([Constant(d, m)], [Ramp(d, a - m, z - m)])
    else SplitCrossingRamp(d, a, z, m)
  }

  /** `splitPhaseByRequestsPerSecond`: (chunk phases, remainder phases). */
  function SplitPhaseByRate(p: Phase, m: real): (r: (seq<Phase>, seq<Phase>))
    ensures Aligned(r) && |r.0| <= 2
    ensures p.Invalid? <==> r.0 == []
  {
    var q := Normalize(p);
    match q
    case Pause(_) => ([q], [q])
    case Invalid => ([], [])
    case Constant(d, a) => SplitConstant(d, a, m)
    case Count(d, c) => SplitCount(d, c, m)
    case Ramp(d, a, z) => SplitRamp(d, a, z, m)
  }

  lemma TotalDurationPair(x: Phase, y: Phase)
    ensures TotalDuration([x, y]) == PhaseDuration(x) + PhaseDuration(y)
  {
    assert [x, y][1..] == [y];
    assert [y][1..] == [];
    assert TotalDuration([y]) == PhaseDuration(y) + TotalDuration([]);
  }

  /** Both sides of a rate split cover exactly the seconds of the phase. */
  lemma SplitPhaseByRateCoversDuration(p: Phase, m: real)
    requires !p.Invalid?
    ensures TotalDuration(SplitPhaseByRate(p, m).0) == PhaseDuration(p)
    ensures TotalDuration(SplitPhaseByRate(p, m).1) == PhaseDuration(p)
  {
    var r := SplitPhaseByRate(p, m);
    if |r.0| == 2 {
      TotalDurationPair(r.0[0], r.0[1]);
      TotalDurationPair(r.1[0], r.1[1]);
      assert r.0 == [r.0[0], r.0[1]] && r.1 == [r.1[0], r.1[1]];
    } else {
      assert |r.0| == 1;
      assert r.0 == [r.0[0]] && r.1 == [r.1[0]];
    }
  }

  lemma CountChunkAtMost(d: real, c: real, m: real)
    requires m >= 1.0
    ensures AllAtMost(SplitCount(d, c, m).0, m)
  {
    if PhaseRps(Count(d, c)) > m {
      assert d != 0.0;
      assert SplitCount(d, c, m).0 == [Count(d, m * d)];
      CountShares(d, c, m);
      assert PhaseRps(Count(d, m * d)) == m;
    }
  }

  lemma RampChunkAtMost(d: real, a: real, z: real, m: real)
    requires m >= 1.0 && a != z
    ensures AllAtMost(SplitRamp(d, a, z, m).0, m)
  {
    if Max(a, z) > m && Min(a, z) < m {
      assert SplitRamp(d, a, z, m) == SplitCrossingRamp(d, a, z, m);
    }
  }

  /** Every chunk phase runs at or below the ceiling. */
  lemma SplitPhaseByRateChunkAtMost(p: Phase, m: real)
    requires m >= 1.0
    ensures AllAtMost(SplitPhaseByRate(p, m).0, m)
  {
    match Normalize(p)
    case Count(d, c) => CountChunkAtMost(d, c, m);
    case Ramp(d, a, z) => RampChunkAtMost(d, a, z, m);
    case _ =>
  }

  /** Rate above zero, rounded up: the measure that the repeated rate split
      drives down. */
  function PosCeil(x: real): nat {
    if x > 0.0 then Ceil(x) else 0
  }

  /** Taking a whole ceiling of at least 1 off a rate above it, and raising
      the result to at least 1, lowers the rounded-up rate by exactly the
      ceiling. */
  lemma ExcessBound(x: real, m: real)
    requires m >= 1.0 && Whole(m) && x > m
    ensures PosCeil(x) > m.Floor
    ensures PosCeil(x - m) == PosCeil(x) - m.Floor
    ensures PosCeil(Max(1.0, x - m)) == PosCeil(x) - m.Floor
    ensures PosCeil(Max(x - m, 1.0)) == PosCeil(x) - m.Floor
  {
    var n := m.Floor;
    assert m == n as real;
    assert Ceil(x) >= n + 1;
    CeilShift(x, n);
    assert Ceil(1.0) == 1;
  }

  lemma CrossingRemainderDrops(d: real, a: real, z: real, m: real)
    requires a != z && m >= 1.0 && Whole(m) && Min(a, z) < m < Max(a, z)
    ensures DropsBelow(SplitCrossingRamp(d, a, z, m).1, PosCeil(Max(a, z)) - m.Floor)
  {
    ExcessBound(Max(a, z), m);
    assert PosCeil(0.0) == 0;
    if a < z {
      assert PhaseRps(RampOrConstant(d, 1.0, z - m)) == Max(1.0, z - m);
    } else {
      assert PhaseRps(RampOrConstant(d, a - m, 1.0)) == Max(a - m, 1.0);
    }
  }

  /** The rounded-up rates of a remainder list are all at most `top`
      and none is negative. */
  predicate DropsBelow(rem: seq<Phase>, top: int) {
    forall i :: 0 <= i < |rem| ==> PhaseRps(rem[i]) >= 0.0 && PosCeil(PhaseRps(rem[i])) <= top
  }

  predicate OnlyPauses(rem: seq<Phase>) {
    forall i :: 0 <= i < |rem| ==> PhaseRps(rem[i]) == 0.0
  }

  lemma CountRemainderDrops(d: real, c: real, m: real)
    requires m >= 1.0 && Whole(m) && d != 0.0 && c / d > m
    ensures DropsBelow([Count(d, c - m * d)], PosCeil(c / d) - m.Floor)
  {
    assert (c - m * d) / d == c / d - m;
    ExcessBound(c / d, m);
  }

  lemma RampRemainderDrops(d: real, a: real, z: real, m: real)
    requires m >= 1.0 && Whole(m) && a != z && Max(a, z) > m
    ensures DropsBelow(SplitPhaseByRate(Ramp(d, a, z), m).1, PosCeil(Max(a, z)) - m.Floor)
  {
    if Min(a, z) >= m {
      assert SplitPhaseByRate(Ramp(d, a, z), m).1 == [Ramp(d, a - m, z - m)];
      assert Max(a - m, z - m) == Max(a, z) - m;
      ExcessBound(Max(a, z), m);
    } else {
      assert SplitPhaseByRate(Ramp(d, a, z), m) == SplitCrossingRamp(d, a, z, m);
      CrossingRemainderDrops(d, a, z, m);
    }
  }

  /** Each remainder phase is a valid, non-negative rate. Below the ceiling
      the remainder only pauses; above it every remainder phase runs at a
      rounded-up rate at least the ceiling below the phase's own. */
  lemma SplitPhaseByRateRemainderDrops(p: Phase, m: real)
    requires m >= 1.0 && Whole(m)
    ensures PhaseRps(p) <= m ==> OnlyPauses(SplitPhaseByRate(p, m).1)
    ensures PhaseRps(p) > m ==> DropsBelow(SplitPhaseByRate(p, m).1, PosCeil(PhaseRps(p)) - m.Floor)
  {
    var q := Normalize(p);
    var r := SplitPhaseByRate(p, m);
    if PhaseRps(p) > m {
      match q
      case Constant(d, a) =>
        assert r.1 == [Constant(d, a - m)];
        ExcessBound(a, m);
      case Count(d, c) =>
        assert q == p && d != 0.0;
        assert |r.1| == 1 && r.1[0].Count?;
        assert r.1[0].duration == d && r.1[0].arrivalCount == c - m * d;
        assert r.1 == [Count(d, c - m * d)];
        CountRemainderDrops(d, c, m);
      case Ramp(d, a, z) =>
        assert r == SplitPhaseByRate(Ramp(d, a, z), m);
        RampRemainderDrops(d, a, z, m);
    }
  }

  /** The phase crosses the ceiling part-way: the one case the split has
      to cut in time. */
  predicate Crosses(p: Phase, m: real) {
    p.Ramp? && Min(p.arrivalRate, p.rampTo) < m < Max(p.arrivalRate, p.rampTo)
  }

  /** Outside the crossing case each side is a single phase, and at every
      instant the chunk and the remainder together carry exactly the rate
      of the phase, the chunk never more than the ceiling. */
  lemma SplitPhaseByRateConservesRate(p: Phase, m: real, t: real)
    requires m >= 0.0 && !p.Invalid? && !Crosses(p, m)
    ensures |SplitPhaseByRate(p, m).0| == 1
    ensures RateAt(SplitPhaseByRate(p, m).0[0], t) + RateAt(SplitPhaseByRate(p, m).1[0], t) == RateAt(p, t)
    ensures PhaseRps(p) > m ==> RateAt(SplitPhaseByRate(p, m).0[0], t) == m
  {
    match Normalize(p)
    case Count(d, c) => CountConservesRate(d, c, m, t);
    case Ramp(d, a, z) => RampConservesRate(d, a, z, m, t);
    case Constant(d, a) =>
      NormalizeKeepsRate(p, t);
      assert SplitPhaseByRate(p, m) == SplitConstant(d, a, m);
    case _ =>
  }

  lemma CountConservesRate(d: real, c: real, m: real, t: real)
    requires m >= 0.0
    ensures var r := SplitCount(d, c, m);
      && RateAt(r.0[0], t) + RateAt(r.1[0], t) == RateAt(Count(d, c), t)
      && (PhaseRps(Count(d, c)) > m ==> RateAt(r.0[0], t) == m)
  {
    if PhaseRps(Count(d, c)) > m {
      assert d != 0.0;
      var r := SplitCount(d, c, m);
      assert r.0[0] == Count(d, m * d) && r.1[0] == Count(d, c - m * d);
      CountShares(d, c, m);
    }
  }

  lemma RampConservesRate(d: real, a: real, z: real, m: real, t: real)
    requires m >= 0.0 && a != z && !(Min(a, z) < m < Max(a, z))
    ensures var r := SplitRamp(d, a, z, m);
      && |r.0| == 1
      && RateAt(r.0[0], t) + RateAt(r.1[0], t) == RateAt(Ramp(d, a, z), t)
      && (Max(a, z) > m ==> RateAt(r.0[0], t) == m)
  {
    if Max(a, z) > m {
      var r := SplitRamp(d, a, z, m);
      assert Min(a, z) >= m;
      assert r.0[0] == Constant(d, m) && r.1[0] == Ramp(d, a - m, z - m);
      if d != 0.0 {
        assert (a - m) + ((z - m) - (a - m)) * (t / d) + m == a + (z - a) * (t / d);
      }
    }
  }

  lemma CountShares(d: real, c: real, m: real)
    requires d != 0.0
    ensures (m * d) / d == m
    ensures (m * d) / d + (c - m * d) / d == c / d
  {
  }

  /** A crossing ramp is cut at the whole second nearest to where it meets
      the ceiling, and that meeting point lies strictly inside the ramp. */
  lemma CrossingCutNearIntersection(d: real, a: real, z: real, m: real)
    requires d > 0.0 && Min(a, z) < m < Max(a, z)
    ensures var x := CrossingTime(d, a, z, m);
            && 0.0 < x < d
            && a + (z - a) * (x / d) == m
            && -0.5 < Round(x) as real - x <= 0.5
  {
    var x := CrossingTime(d, a, z, m);
    assert (m - a) * d == (z - a) * x;
    LineMeets(d, a, z, m, x);
  }

  /** A point `x` on the line from `(0, a)` to `(d, z)` at height `m`. */
  lemma LineMeets(d: real, a: real, z: real, m: real, x: real)
    requires d > 0.0 && (m - a) * d == (z - a) * x
    ensures a + (z - a) * (x / d) == m
  {
    assert (z - a) * (x / d) == ((z - a) * x) / d;
  }

  /** The crossing `x` lies strictly inside the ramp, and the cut is a
      point of the ramp within half a second of it. */
  predicate CutNearCrossing(x: real, cut: real, d: real) {
    0.0 < x < d && -0.5 < cut - x <= 0.5 && 0.0 <= cut <= d
  }

  /** The ramp's rate `x` seconds in is exactly the ceiling. */
  predicate MeetsCeilingAt(p: Phase, x: real, m: real) {
    RateAt(p, x) == m
  }

  /** A rising ramp from `a` to `z` over `d` seconds, cut at `cut`: the
      chunk ramps from `a` up to the ceiling and then holds it, while the
      remainder pauses and then ramps the excess up to `z - m`. When the
      cut falls on the ramp's end, each side is a single phase over the
      whole ramp. */
  predicate RisingCutShape(d: real, a: real, z: real, m: real, cut: real, r: (seq<Phase>, seq<Phase>)) {
    && (cut < d ==>
          && r.0 == [Ramp(cut, a, m), Constant(d - cut, m)]
          && r.1 == [Pause(cut), RampOrConstant(d - cut, 1.0, z - m)]
          && RateAt(r.0[0], 0.0) == a
          && RateAt(r.1[1], d - cut) == z - m)
    && (cut == d ==>
          && r == ([RampOrConstant(d, Max(a, 1.0), m)], [RampOrConstant(d, 1.0, z - m)])
          && RateAt(r.0[0], d) == m
          && RateAt(r.1[0], d) == z - m)
  }

  /** A falling ramp from `a` to `z` over `d` seconds, cut at `cut`: the
      chunk holds the ceiling and then ramps down to `z`, while the
      remainder ramps the excess from `a - m` and then pauses. When the cut
      falls on the ramp's start, each side is a single phase over the whole
      ramp. */
  predicate FallingCutShape(d: real, a: real, z: real, m: real, cut: real, r: (seq<Phase>, seq<Phase>)) {
    && (cut > 0.0 ==>
          && r.0 == [Constant(cut, m), Ramp(d - cut, m, z)]
          && r.1 == [RampOrConstant(cut, a - m, 1.0), Pause(d - cut)]
          && (cut < d ==> RateAt(r.0[1], d - cut) == z)
          && RateAt(r.1[0], 0.0) == a - m)
    && (cut == 0.0 ==>
          && r == ([RampOrConstant(d, m, Max(z, 1.0))], [RampOrConstant(d, a - m, 1.0)])
          && RateAt(r.0[0], 0.0) == m
          && RateAt(r.1[0], 0.0) == a - m)
  }

  /** Where a crossing ramp is cut and what each side gets. On a
      whole-second ramp the cut is the whole second nearest the crossing,
      inside the ramp. Below the ceiling the chunk ramps between the ramp's
      own end and the ceiling while the remainder pauses; above it the chunk
      holds the ceiling and the remainder ramps the excess between 1 and
      the ramp's far end minus the ceiling. When the part above the ceiling
      rounds away, each side is a single phase over the whole ramp. */
  lemma CrossingSplitShape(p: Phase, m: real)
    requires Crosses(p, m) && p.duration > 0.0 && Whole(p.duration)
    ensures var d, a, z := p.duration, p.arrivalRate, p.rampTo;
      var x := CrossingTime(d, a, z, m);
      var cut := Round(x) as real;
      var r := SplitPhaseByRate(p, m);
      && CutNearCrossing(x, cut, d)
      && MeetsCeilingAt(p, x, m)
      && RateAt(p, 0.0) == a && RateAt(p, d) == z
      && (a < z ==> RisingCutShape(d, a, z, m, cut, r))
      && (a > z ==> FallingCutShape(d, a, z, m, cut, r))
  {
    var d, a, z := p.duration, p.arrivalRate, p.rampTo;
    CrossingCutNearIntersection(d, a, z, m);
    CrossingCutWithin(d, a, z, m);
    CrossingIsSplitCrossingRamp(p, m);
    assert MeetsCeilingAt(p, CrossingTime(d, a, z, m), m);
    if a < z {
      RisingCrossingShape(d, a, z, m);
    } else {
      FallingCrossingShape(d, a, z, m);
    }
  }

  lemma CrossingIsSplitCrossingRamp(p: Phase, m: real)
    requires Crosses(p, m) && p.duration > 0.0
    ensures SplitPhaseByRate(p, m) == SplitCrossingRamp(p.duration, p.arrivalRate, p.rampTo, m)
    ensures RateAt(p, 0.0) == p.arrivalRate && RateAt(p, p.duration) == p.rampTo
  {
    assert Normalize(p) == p;
    RampEndRate(p.duration, p.arrivalRate, p.rampTo);
  }

  lemma RisingCrossingShape(d: real, a: real, z: real, m: real)
    requires d > 0.0 && a < m < z
    requires Round(CrossingTime(d, a, z, m)) as real <= d
    ensures RisingCutShape(d, a, z, m, Round(CrossingTime(d, a, z, m)) as real, SplitCrossingRamp(d, a, z, m))
  {
    var cut := Round(CrossingTime(d, a, z, m)) as real;
    if cut < d {
      RampEndRate(d - cut, 1.0, z - m);
    } else {
      RampEndRate(d, Max(a, 1.0), m);
      RampEndRate(d, 1.0, z - m);
    }
  }

  lemma FallingCrossingShape(d: real, a: real, z: real, m: real)
    requires d > 0.0 && z < m < a
    requires 0.0 <= Round(CrossingTime(d, a, z, m)) as real <= d
    ensures FallingCutShape(d, a, z, m, Round(CrossingTime(d, a, z, m)) as real, SplitCrossingRamp(d, a, z, m))
  {
    var cut := Round(CrossingTime(d, a, z, m)) as real;
    if cut > 0.0 {
      RampEndRate(cut, a - m, 1.0);
      if cut < d {
        RampEndRate(d - cut, m, z);
        assert RampOrConstant(d - cut, m, z) == Ramp(d - cut, m, z);
      }
    } else {
      RampEndRate(d, m, Max(z, 1.0));
      RampEndRate(d, a - m, 1.0);
    }
  }

  /** A ramp-or-constant over a positive duration ends at its far rate. */
  lemma RampEndRate(d: real, a: real, z: real)
    requires d > 0.0
    ensures RateAt(RampOrConstant(d, a, z), 0.0) == a
    ensures RateAt(RampOrConstant(d, a, z), d) == z
  {
    assert d / d == 1.0;
  }

  /** Side-by-side concatenation of two (chunk, remainder) pairs. */
  function Join(x: (seq<Phase>, seq<Phase>), y: (seq<Phase>, seq<Phase>)): (seq<Phase>, seq<Phase>) {
    (x.0 + y.0, x.1 + y.1)
  }

  /** `splitScriptByRequestsPerSecond` on the phase list: the per-phase
      splits concatenated in order. */
  function SplitPhasesByRate(ps: seq<Phase>, m: real): (r: (seq<Phase>, seq<Phase>))
    ensures Aligned(r)
  {
    if ps == [] then ([], [])
    else
      var head := SplitPhaseByRate(ps[0], m);
      var tail := SplitPhasesByRate(ps[1..], m);
      AlignedJoin(head, tail);
      Join(head, tail)
  }

  lemma AlignedJoin(x: (seq<Phase>, seq<Phase>), y: (seq<Phase>, seq<Phase>))
    requires Aligned(x) && Aligned(y)
    ensures Aligned(Join(x, y))
  {
    var r := Join(x, y);
    forall i | 0 <= i < |r.0|
      ensures PhaseDuration(r.0[i]) == PhaseDuration(r.1[i])
    {
      if i >= |x.0| {
        assert r.0[i] == y.0[i - |x.0|] && r.1[i] == y.1[i - |x.0|];
      }
    }
  }

  lemma SplitPhasesByRateCons(p: Phase, rest: seq<Phase>, m: real)
    ensures SplitPhasesByRate([p] + rest, m) == Join(SplitPhaseByRate(p, m), SplitPhasesByRate(rest, m))
  {
    assert ([p] + rest)[0] == p;
    assert ([p] + rest)[1..] == rest;
  }

  lemma JoinAssociative(x: (seq<Phase>, seq<Phase>), y: (seq<Phase>, seq<Phase>), z: (seq<Phase>, seq<Phase>))
    ensures Join(x, Join(y, z)) == Join(Join(x, y), z)
  {
    assert x.0 + (y.0 + z.0) == (x.0 + y.0) + z.0;
    assert x.1 + (y.1 + z.1) == (x.1 + y.1) + z.1;
  }

  /** Splitting two lists one after the other is splitting their
      concatenation. */
  lemma {:induction false} SplitPhasesByRateAppend(a: seq<Phase>, b: seq<Phase>, m: real)
    ensures SplitPhasesByRate(a + b, m) == Join(SplitPhasesByRate(a, m), SplitPhasesByRate(b, m))
  {
    if a == [] {
      assert a + b == b;
      var y := SplitPhasesByRate(b, m);
      assert SplitPhasesByRate(a, m) == ([], []);
      assert [] + y.0 == y.0 && [] + y.1 == y.1;
    } else {
      var head := SplitPhaseByRate(a[0], m);
      SplitPhasesByRateAppend(a[1..], b, m);
      SplitPhasesByRateCons(a[0], a[1..] + b, m);
      SplitPhasesByRateCons(a[0], a[1..], m);
      assert [a[0]] + (a[1..] + b) == a + b;
      assert [a[0]] + a[1..] == a;
      JoinAssociative(head, SplitPhasesByRate(a[1..], m), SplitPhasesByRate(b, m));
    }
  }

  /** Both scripts of a rate split cover the seconds of the original. */
  lemma {:induction false} SplitPhasesByRateCoversDuration(ps: seq<Phase>, m: real)
    requires NoInvalid(ps)
    ensures TotalDuration(SplitPhasesByRate(ps, m).0) == TotalDuration(ps)
    ensures TotalDuration(SplitPhasesByRate(ps, m).1) == TotalDuration(ps)
  {
    if ps != [] {
      var head := SplitPhaseByRate(ps[0], m);
      var tail := SplitPhasesByRate(ps[1..], m);
      SplitPhaseByRateCoversDuration(ps[0], m);
      SplitPhasesByRateCoversDuration(ps[1..], m);
      TotalDurationAppend(head.0, tail.0);
      TotalDurationAppend(head.1, tail.1);
    }
  }

  /** Every phase of the chunk script is at or below the ceiling, so the
      chunk passes the rate check. */
  lemma {:induction false} SplitPhasesByRateChunkAtMost(ps: seq<Phase>, m: real)
    requires m >= 1.0
    ensures AllAtMost(SplitPhasesByRate(ps, m).0, m)
    ensures WithinRate(SplitPhasesByRate(ps, m).0, m)
  {
    if ps != [] {
      var head := SplitPhaseByRate(ps[0], m);
      var tail := SplitPhasesByRate(ps[1..], m);
      SplitPhaseByRateChunkAtMost(ps[0], m);
      SplitPhasesByRateChunkAtMost(ps[1..], m);
      assert forall j :: 0 <= j < |head.0 + tail.0| ==>
        (head.0 + tail.0)[j] == if j < |head.0| then head.0[j] else tail.0[j - |head.0|];
    }
    AllAtMostIsWithinRate(SplitPhasesByRate(ps, m).0, m);
  }

  /** Largest rounded-up phase rate of a list: the measure of the repeated
      rate split. */
  function PeakCeil(ps: seq<Phase>): (r: nat)
    ensures forall j :: 0 <= j < |ps| ==> PosCeil(PhaseRps(ps[j])) <= r
    ensures ps == [] || exists j :: 0 <= j < |ps| && PosCeil(PhaseRps(ps[j])) == r
  {
    if ps == [] then 0
    else
      var rest := PeakCeil(ps[1..]);
      assert forall j :: 1 <= j < |ps| ==> ps[j] == ps[1..][j - 1];
      if PosCeil(PhaseRps(ps[0])) >= rest then PosCeil(PhaseRps(ps[0]))
      else
        var k :| 0 <= k < |ps[1..]| && PosCeil(PhaseRps(ps[1..][k])) == rest;
        assert ps[k + 1] == ps[1..][k];
        rest
  }

  /** No remainder phase is negative, and each either idles or runs at a
      rounded-up rate of at most `bound`. */
  predicate RemainderBelow(rem: seq<Phase>, bound: int) {
    forall i :: 0 <= i < |rem| ==>
      PhaseRps(rem[i]) >= 0.0 && (PosCeil(PhaseRps(rem[i])) == 0 || PosCeil(PhaseRps(rem[i])) <= bound)
  }

  lemma RemainderBelowAppend(x: seq<Phase>, y: seq<Phase>, bound: int)
    requires RemainderBelow(x, bound) && RemainderBelow(y, bound)
    ensures RemainderBelow(x + y, bound)
  {
    forall i | 0 <= i < |x + y|
      ensures PhaseRps((x + y)[i]) >= 0.0
      ensures PosCeil(PhaseRps((x + y)[i])) == 0 || PosCeil(PhaseRps((x + y)[i])) <= bound
    {
      if i >= |x| {
        assert (x + y)[i] == y[i - |x|];
      }
    }
  }

  lemma PhaseRemainderBelow(p: Phase, m: real, bound: nat)
    requires m >= 1.0 && Whole(m) && PosCeil(PhaseRps(p)) <= bound
    ensures RemainderBelow(SplitPhaseByRate(p, m).1, bound - m.Floor)
  {
    SplitPhaseByRateRemainderDrops(p, m);
    assert PosCeil(0.0) == 0;
  }

  lemma {:induction false} SplitPhasesByRateRemainderBelow(ps: seq<Phase>, m: real)
    requires m >= 1.0 && Whole(m)
    ensures RemainderBelow(SplitPhasesByRate(ps, m).1, PeakCeil(ps) - m.Floor)
  {
    if ps != [] {
      var head := SplitPhaseByRate(ps[0], m).1;
      var tail := SplitPhasesByRate(ps[1..], m).1;
      var bound := PeakCeil(ps);
      PhaseRemainderBelow(ps[0], m, bound);
      SplitPhasesByRateRemainderBelow(ps[1..], m);
      assert PeakCeil(ps[1..]) <= bound;
      assert RemainderBelow(tail, bound - m.Floor);
      RemainderBelowAppend(head, tail, bound - m.Floor);
      assert SplitPhasesByRate(ps, m).1 == head + tail;
    }
  }

  /** The measure of the repeated rate split: a remainder that still
      breaks the ceiling has a rounded-up peak at least the ceiling lower
      than the list it came from. */
  lemma SplitPhasesByRateRemainderShrinks(ps: seq<Phase>, m: real)
    requires m >= 1.0 && Whole(m)
    requires !WithinRate(SplitPhasesByRate(ps, m).1, m)
    ensures PeakCeil(SplitPhasesByRate(ps, m).1) <= PeakCeil(ps) - m.Floor
    ensures PeakCeil(SplitPhasesByRate(ps, m).1) < PeakCeil(ps)
  {
    var rem := SplitPhasesByRate(ps, m).1;
    SplitPhasesByRateRemainderBelow(ps, m);
    var v := ScriptRps(rem).value;
    var j :| 0 <= j < |rem| && PhaseRps(rem[j]) == v;
    assert Ceil(v) >= 1;
    assert PosCeil(PhaseRps(rem[j])) >= 1;
    var k :| 0 <= k < |rem| && PosCeil(PhaseRps(rem[k])) == PeakCeil(rem);
  }

  /** `splitScriptByRequestsPerSecond`: two scripts to run side by side,
      sharing every field of the original but the phases. */
  function SplitScriptByRate(s: Script, m: real): (r: (Script, Script))
    ensures r.0 == s.(phases := r.0.phases) && r.1 == s.(phases := r.1.phases)
    ensures (r.0.phases, r.1.phases) == SplitPhasesByRate(s.phases, m)
  {
    var parts := SplitPhasesByRate(s.phases, m);
    (s.(phases := parts.0), s.(phases := parts.1))
  }

  /** A list without invalid phases splits into two such lists. */
  lemma {:induction false} SplitPhasesByRateStaysValid(ps: seq<Phase>, m: real)
    requires NoInvalid(ps)
    ensures NoInvalid(SplitPhasesByRate(ps, m).0) && NoInvalid(SplitPhasesByRate(ps, m).1)
  {
    if ps != [] {
      var head := SplitPhaseByRate(ps[0], m);
      var tail := SplitPhasesByRate(ps[1..], m);
      SplitPhaseByRateStaysValid(ps[0], m);
      SplitPhasesByRateStaysValid(ps[1..], m);
      assert forall j :: 0 <= j < |head.0 + tail.0| ==>
        (head.0 + tail.0)[j] == if j < |head.0| then head.0[j] else tail.0[j - |head.0|];
      assert forall j :: 0 <= j < |head.1 + tail.1| ==>
        (head.1 + tail.1)[j] == if j < |head.1| then head.1[j] else tail.1[j - |head.1|];
    }
  }

  lemma SplitPhaseByRateStaysValid(p: Phase, m: real)
    ensures NoInvalid(SplitPhaseByRate(p, m).0) && NoInvalid(SplitPhaseByRate(p, m).1)
  {
  }

  /** Both sides are well-formed and last whole seconds. */
  predicate SoundPieces(r: (seq<Phase>, seq<Phase>)) {
    AllWellFormed(r.0) && AllWellFormed(r.1) && WholeDurations(r.0) && WholeDurations(r.1)
  }

  /** Over a whole-second ramp the rounded crossing is a whole second
      within the ramp. */
  lemma CrossingCutWithin(d: real, a: real, z: real, m: real)
    requires d >= 0.0 && Whole(d) && Min(a, z) < m < Max(a, z)
    ensures 0.0 <= Round(CrossingTime(d, a, z, m)) as real <= d
  {
    var x := CrossingTime(d, a, z, m);
    if d > 0.0 {
      CrossingCutNearIntersection(d, a, z, m);
      RoundInside(x, d.Floor);
    } else {
      assert (z - a) * x == 0.0;
      ZeroFactor(z - a, x);
    }
  }

  lemma RoundInside(x: real, n: int)
    requires 0.0 < x < n as real
    ensures 0 <= Round(x) <= n
  {
  }

  lemma ZeroFactor(g: real, x: real)
    requires g != 0.0 && g * x == 0.0
    ensures x == 0.0 && Round(x) == 0
  {
  }

  lemma CrossingKeepsWellFormed(d: real, a: real, z: real, m: real)
    requires d >= 0.0 && Whole(d) && a >= 0.0 && z >= 0.0 && Min(a, z) < m < Max(a, z)
    ensures SoundPieces(SplitCrossingRamp(d, a, z, m))
  {
    var cut := Round(CrossingTime(d, a, z, m)) as real;
    CrossingCutWithin(d, a, z, m);
    WholeInt(Round(CrossingTime(d, a, z, m)));
    WholeDiff(d, cut.Floor);
    assert Whole(d - cut);
  }

  /** A well-formed whole-second phase splits into well-formed whole-second
      pieces under a whole ceiling. */
  lemma SplitPhaseByRateKeepsWellFormed(p: Phase, m: real)
    requires WellFormed(p) && Whole(PhaseDuration(p)) && m >= 0.0 && Whole(m)
    ensures SoundPieces(SplitPhaseByRate(p, m))
  {
    var q := Normalize(p);
    var r := SplitPhaseByRate(p, m);
    match q
    case Count(d, c) =>
      if PhaseRps(q) > m {
        assert q == p;
        CountExcessWhole(d, c, m);
        assert |r.0| == 1 && r.0[0] == Count(d, m * d);
        assert |r.1| == 1 && r.1[0] == Count(d, c - m * d);
      }
    case Ramp(d, a, z) =>
      if Max(a, z) > m && Min(a, z) < m {
        assert r == SplitCrossingRamp(d, a, z, m);
        CrossingKeepsWellFormed(d, a, z, m);
      }
    case _ =>
  }

  lemma CountExcessWhole(d: real, c: real, m: real)
    requires d > 0.0 && Whole(d) && Whole(c) && m >= 0.0 && Whole(m) && c / d > m
    ensures m * d >= 0.0 && Whole(m * d)
    ensures c - m * d >= 0.0 && Whole(c - m * d)
  {
    WholeProduct(m, d);
    assert c == (c / d) * d;
    assert c >= m * d;
    WholeDiff(c, (m * d).Floor);
  }

  lemma {:induction false} SplitPhasesByRateKeepsWellFormed(ps: seq<Phase>, m: real)
    requires AllWellFormed(ps) && WholeDurations(ps) && m >= 0.0 && Whole(m)
    ensures SoundPieces(SplitPhasesByRate(ps, m))
  {
    if ps != [] {
      var head := SplitPhaseByRate(ps[0], m);
      var tail := SplitPhasesByRate(ps[1..], m);
      SplitPhaseByRateKeepsWellFormed(ps[0], m);
      SplitPhasesByRateKeepsWellFormed(ps[1..], m);
      assert forall j :: 0 <= j < |head.0 + tail.0| ==>
        (head.0 + tail.0)[j] == if j < |head.0| then head.0[j] else tail.0[j - |head.0|];
      assert forall j :: 0 <= j < |head.1 + tail.1| ==>
        (head.1 + tail.1)[j] == if j < |head.1| then head.1[j] else tail.1[j - |head.1|];
    }
  }
}
