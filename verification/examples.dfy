/** Concrete cases the engine's own test suite pins down, restated over
    the model with the default settings: chunks of at most 120 seconds and
    25 arrivals per second, started 15 seconds after planning. */
module Examples {
  import opened Wrappers
  import opened Numbers
  import opened Phases
  import opened Scripts
  import opened DurationSplitter
  import opened IntersectionMath
  import opened RateSplitter
  import opened Scheduler
  import opened Planner

  const Defaults := Settings(120, 25, 15000)

  /** A ramp cut half-way between two whole rates rounds the cut rate up. */
  lemma RampSplitRoundsHalfUp()
    ensures SplitPhaseByDuration(Ramp(240.0, 1.0, 2.0), 120.0) == (Ramp(120.0, 1.0, 2.0), Ramp(120.0, 2.0, 2.0))
    ensures SplitPhaseByDuration(Ramp(360.0, 1.0, 4.0), 120.0) == (Ramp(120.0, 1.0, 2.0), Ramp(240.0, 2.0, 4.0))
  {
    assert Interpolate(240.0, 1.0, 2.0, 120.0) == 1.5;
    assert Interpolate(360.0, 1.0, 4.0, 120.0) == 2.0;
  }

  /** Constant rates are copied, counts and pauses are shared out. */
  lemma FlatSplits()
    ensures SplitPhaseByDuration(Constant(360.0, 1.0), 120.0) == (Constant(120.0, 1.0), Constant(240.0, 1.0))
    ensures SplitPhaseByDuration(Count(240.0, 240.0), 120.0) == (Count(120.0, 120.0), Count(120.0, 120.0))
    ensures SplitPhaseByDuration(Pause(240.0), 120.0) == (Pause(120.0), Pause(120.0))
  {
    assert Apportion(240.0, 120.0, 240.0) == 120.0;
  }

  /** Equal ends have no crossing. */
  lemma ParallelRampHasNoIntersection()
    ensures Intersection(Ramp(1.0, 2.0, 2.0), 1.0) == Failure(ParallelLines)
  {
  }

  /** A ramp entirely above the ceiling: the chunk holds the ceiling and
      the remainder ramps the excess. */
  lemma RampAboveCeiling()
    ensures SplitPhaseByRate(Ramp(1.0, 50.0, 75.0), 25.0) == ([Constant(1.0, 25.0)], [Ramp(1.0, 25.0, 50.0)])
  {
  }

  /** A ramp entirely below the ceiling, and a ramp with equal ends. */
  lemma RampBelowCeiling()
    ensures SplitPhaseByRate(Ramp(1.0, 12.0, 18.0), 25.0) == ([Ramp(1.0, 12.0, 18.0)], [Pause(1.0)])
    ensures SplitPhaseByRate(Ramp(1.0, 2.0, 2.0), 25.0) == ([Constant(1.0, 2.0)], [Pause(1.0)])
  {
  }

  /** Rising and falling ramps that cross the ceiling half-way. */
  lemma CrossingRamps()
    ensures SplitPhaseByRate(Ramp(2.0, 12.5, 37.5), 25.0)
            == ([Ramp(1.0, 12.5, 25.0), Constant(1.0, 25.0)], [Pause(1.0), Ramp(1.0, 1.0, 12.5)])
    ensures SplitPhaseByRate(Ramp(2.0, 37.5, 12.5), 25.0)
            == ([Constant(1.0, 25.0), Ramp(1.0, 25.0, 12.5)], [Ramp(1.0, 12.5, 1.0), Pause(1.0)])
  {
    assert CrossingTime(2.0, 12.5, 37.5, 25.0) == 1.0;
    assert CrossingTime(2.0, 37.5, 12.5, 25.0) == 1.0;
  }

  /** A one-second ramp from 0 to 26 crosses 25 so late that the part above
      it rounds to nothing; the excess is spread over the whole second. */
  lemma LateCrossingKeepsDuration()
    ensures SplitPhaseByRate(Ramp(1.0, 0.0, 26.0), 25.0) == ([Ramp(1.0, 1.0, 25.0)], [Constant(1.0, 1.0)])
  {
    assert CrossingTime(1.0, 0.0, 26.0, 25.0) == 25.0 / 26.0;
    assert Round(25.0 / 26.0) == 1;
  }

  /** The mirror image: a one-second ramp from 26 down to 0 crosses 25 so
      early that the part above it rounds to nothing; the excess is again
      spread over the whole second rather than lost. */
  lemma EarlyCrossingKeepsDuration()
    ensures SplitPhaseByRate(Ramp(1.0, 26.0, 0.0), 25.0) == ([Ramp(1.0, 25.0, 1.0)], [Constant(1.0, 1.0)])
  {
    assert CrossingTime(1.0, 26.0, 0.0, 25.0) == 1.0 / 26.0;
    assert Round(1.0 / 26.0) == 0;
  }

  /** The continuations of the 900-second ramp-down, round by round: each
      round keeps 120 seconds and hands on the rest at the rounded rate. */
  lemma RampDownContinuations()
    ensures SplitPhaseByDuration(Ramp(900.0, 200.0, 1.0), 120.0).1 == Ramp(780.0, 173.0, 1.0)
    ensures SplitPhaseByDuration(Ramp(780.0, 173.0, 1.0), 120.0).1 == Ramp(660.0, 147.0, 1.0)
    ensures SplitPhaseByDuration(Ramp(660.0, 147.0, 1.0), 120.0).1 == Ramp(540.0, 120.0, 1.0)
    ensures SplitPhaseByDuration(Ramp(540.0, 120.0, 1.0), 120.0).1 == Ramp(420.0, 94.0, 1.0)
    ensures SplitPhaseByDuration(Ramp(420.0, 94.0, 1.0), 120.0).1 == Ramp(300.0, 67.0, 1.0)
    ensures SplitPhaseByDuration(Ramp(300.0, 67.0, 1.0), 120.0).1 == Ramp(180.0, 41.0, 1.0)
    ensures SplitPhaseByDuration(Ramp(180.0, 41.0, 1.0), 120.0).1 == Ramp(60.0, 14.0, 1.0)
  {
    assert Round(Interpolate(900.0, 200.0, 1.0, 120.0)) == 173;
    assert Round(Interpolate(780.0, 173.0, 1.0, 120.0)) == 147;
    assert Round(Interpolate(660.0, 147.0, 1.0, 120.0)) == 120;
    assert Round(Interpolate(540.0, 120.0, 1.0, 120.0)) == 94;
    assert Round(Interpolate(420.0, 94.0, 1.0, 120.0)) == 67;
    assert Round(Interpolate(300.0, 67.0, 1.0, 120.0)) == 41;
    assert Round(Interpolate(180.0, 41.0, 1.0, 120.0)) == 14;
  }

  /** The 900-second ramp-down with 120-second chunks takes eight rounds.
      That the continuations really shrink by one chunk per round is the
      duration conjunct of `ContinuationNeedsOneRoundLess`; this lemma only
      evaluates the round count for 900 seconds. */
  lemma RampDownTakesEightRounds()
    ensures Rounds(900, Defaults.maxChunkDurationInSeconds) == 8
  {
  }

  /** The repeated rate split of the `0→26` script: two parts, the second
      already within the ceiling. */
  lemma LateCrossingParts()
    ensures RateParts([Ramp(1.0, 0.0, 26.0)], 25) == [[Ramp(1.0, 1.0, 25.0)], [Constant(1.0, 1.0)]]
  {
    var ps := [Ramp(1.0, 0.0, 26.0)];
    LateCrossingKeepsDuration();
    assert ps[1..] == [];
    assert SplitPhasesByRate(ps[1..], 25.0) == ([], []);
    var head := SplitPhaseByRate(ps[0], 25.0);
    assert head.0 + [] == head.0 && head.1 + [] == head.1;
    assert SplitPhasesByRate(ps, 25.0) == ([Ramp(1.0, 1.0, 25.0)], [Constant(1.0, 1.0)]);
    assert ScriptRps([Constant(1.0, 1.0)]) == Ok(1.0);
  }

  /** The `0→26` script is short enough but too fast, so it goes to the
      rate split rather than the duration split. */
  lemma LateCrossingNeedsRateSplit(s: Script)
    requires s.phases == [Ramp(1.0, 0.0, 26.0)]
    ensures WithinDuration(s.phases, 120.0) && !WithinRate(s.phases, 25.0)
  {
    assert ScriptDuration(s.phases) == Ok(1.0);
    assert ScriptRps(s.phases) == Ok(26.0);
  }

  /** A one-second ramp from 0 to 26 is planned as exactly two parallel
      scripts, neither with a zero-second phase. */
  lemma LateCrossingPlansTwoScripts(s: Script)
    requires s.phases == [Ramp(1.0, 0.0, 26.0)]
    ensures var r := PlanPerformance(1, s, Defaults);
      |r| == 2 && r[0].phases == [Ramp(1.0, 1.0, 25.0)] && r[1].phases == [Constant(1.0, 1.0)]
  {
    LateCrossingParts();
    LateCrossingNeedsRateSplit(s);
    var parts := Dispatch(1, s, Defaults);
    assert |parts| == 2 && parts[0].phases == [Ramp(1.0, 1.0, 25.0)] && parts[1].phases == [Constant(1.0, 1.0)];
    DropZeroLoadIdentity(parts[0].phases);
    DropZeroLoadIdentity(parts[1].phases);
  }
}
