/** `planPerformance`: one planning round. A script within both limits is
    dispatched as it is; otherwise the duration split peels off a
    continuation for a later round and the rate split fans the rest out
    into parallel workers. */
module Planner {
  import opened Wrappers
  import opened Numbers
  import opened Phases
  import opened Scripts
  import opened DurationSplitter
  import opened RateSplitter
  import opened Scheduler

  /** A load-generating phase that lasts no time: a worker handed one
      would never finish it. */
  predicate ZeroLoad(p: Phase) {
    (p.Constant? || p.Ramp? || p.Count?) && p.duration == 0.0
  }

  predicate NoZeroLoad(ps: seq<Phase>) {
    forall j :: 0 <= j < |ps| ==> !ZeroLoad(ps[j])
  }

  /** The clean-up before returning: drop every zero-second load phase,
      keeping the others in order. */
  function DropZeroLoad(ps: seq<Phase>): (r: seq<Phase>)
    ensures NoZeroLoad(r)
    ensures |r| <= |ps|
  {
    if ps == [] then []
    else if ZeroLoad(ps[0]) then DropZeroLoad(ps[1..])
    else [ps[0]] + DropZeroLoad(ps[1..])
  }

  /** A phase is kept exactly when it is in the input and is not a
      zero-second load phase. */
  lemma {:induction false} DropZeroLoadMembers(ps: seq<Phase>)
    ensures forall p :: p in DropZeroLoad(ps) <==> p in ps && !ZeroLoad(p)
  {
    if ps != [] {
      DropZeroLoadMembers(ps[1..]);
      assert forall p :: p in ps <==> p == ps[0] || p in ps[1..];
    }
  }

  /** The clean-up works phase by phase: cleaning a concatenation is
      concatenating the cleaned parts, and (`DropZeroLoadCons`) a single
      phase is dropped exactly when it is a zero-second load phase.
      Together these fix the order and the multiplicity of the phases
      kept. */
  lemma {:induction false} DropZeroLoadAppend(a: seq<Phase>, b: seq<Phase>)
    ensures DropZeroLoad(a + b) == DropZeroLoad(a) + DropZeroLoad(b)
  {
    if a == [] {
      assert a + b == b;
    } else {
      var x, rest := a[0], a[1..];
      assert a == [x] + rest;
      assert a + b == [x] + (rest + b);
      DropZeroLoadAppend(rest, b);
      DropZeroLoadCons(x, rest + b);
      DropZeroLoadCons(x, rest);
      if !ZeroLoad(x) {
        assert [x] + (DropZeroLoad(rest) + DropZeroLoad(b)) == ([x] + DropZeroLoad(rest)) + DropZeroLoad(b);
      }
    }
  }

  lemma DropZeroLoadCons(p: Phase, rest: seq<Phase>)
    ensures ZeroLoad(p) ==> DropZeroLoad([p] + rest) == DropZeroLoad(rest)
    ensures !ZeroLoad(p) ==> DropZeroLoad([p] + rest) == [p] + DropZeroLoad(rest)
    ensures DropZeroLoad([p]) == if ZeroLoad(p) then [] else [p]
  {
    assert [p][1..] == [];
    assert ([p] + rest)[0] == p;
    assert ([p] + rest)[1..] == rest;
  }

  /** Dropping zero-second phases leaves the total duration as it was. */
  lemma {:induction false} DropZeroLoadKeepsDuration(ps: seq<Phase>)
    ensures TotalDuration(DropZeroLoad(ps)) == TotalDuration(ps)
  {
    if ps != [] {
      DropZeroLoadKeepsDuration(ps[1..]);
      if !ZeroLoad(ps[0]) {
        var rest := DropZeroLoad(ps[1..]);
        assert ([ps[0]] + rest)[1..] == rest;
      }
    }
  }

  /** A list without zero-second load phases is left alone, so the clean-up
      is idempotent. */
  lemma {:induction false} DropZeroLoadIdentity(ps: seq<Phase>)
    requires NoZeroLoad(ps)
    ensures DropZeroLoad(ps) == ps
  {
    if ps != [] {
      DropZeroLoadIdentity(ps[1..]);
      assert [ps[0]] + ps[1..] == ps;
    }
  }

  /** Generation stamp: kept when the script already has one, otherwise
      the time of this first round. */
  function Genesis(timeNow: int, s: Script): (g: int)
    ensures s.genesis.Some? ==> g == s.genesis.value
    ensures s.genesis.None? ==> g == timeNow
  {
    s.genesis.GetOr(timeNow)
  }

  /** Every script of a round is the input script with only its phases,
      start and genesis replaced, and the genesis is stamped with `g`. */
  predicate Stamped(r: seq<Script>, s: Script, g: int) {
    forall i :: 0 <= i < |r| ==>
      && r[i].genesis == Some(g)
      && r[i] == s.(phases := r[i].phases, start := r[i].start, genesis := r[i].genesis)
  }

  /** Every script from position `from` on starts at `t`. */
  predicate StartsFrom(r: seq<Script>, from: nat, t: int) {
    forall i :: from <= i < |r| ==> r[i].start == Some(t)
  }

  predicate AllNoZeroLoad(r: seq<Script>) {
    forall i :: 0 <= i < |r| ==> NoZeroLoad(r[i].phases)
  }

  /** The continuation a too-long script leaves behind: the seconds past
      the chunk, starting one chunk length after the chunk. */
  predicate ContinuationOf(c: Script, s: Script, st: Settings, timeNow: int) {
    && c.phases == SplitPhasesByDuration(s.phases, st.maxChunkDurationInSeconds as real).1
    && c.start == Some(ChunkStart(timeNow, s, st) + st.maxChunkDurationInSeconds * 1000)
  }

  /** The scripts of one round before the clean-up: the continuation first
      when the script is too long, then the parallel parts. */
  function Dispatch(timeNow: int, s: Script, st: Settings): (r: seq<Script>)
    requires ValidSettings(st)
    ensures |r| >= 2
  {
    var g := s.(genesis := Some(Genesis(timeNow, s)));
    if !WithinDuration(s.phases, st.maxChunkDurationInSeconds as real) then
      var pieces := ScheduleByDuration(timeNow, g, st);
      var chunk := pieces.0;
      if WithinRate(chunk.phases, st.maxChunkRequestsPerSecond as real) then
        [pieces.1, chunk]
      else
        [pieces.1] + ScheduleByRate(timeNow, chunk, st)
    else
      ScheduleByRate(timeNow, g, st)
  }

  /** Every dispatched script carries the genesis stamp and differs from the
      input only in phases and start. A too-long script's continuation comes
      first and every other script starts when the chunk does. */
  lemma DispatchShape(timeNow: int, s: Script, st: Settings)
    requires ValidSettings(st)
    ensures var r := Dispatch(timeNow, s, st);
      && Stamped(r, s, Genesis(timeNow, s))
      && (!WithinDuration(s.phases, st.maxChunkDurationInSeconds as real) ==>
            ContinuationOf(r[0], s, st, timeNow) && StartsFrom(r, 1, ChunkStart(timeNow, s, st)))
      && (WithinDuration(s.phases, st.maxChunkDurationInSeconds as real) ==>
            StartsFrom(r, 0, ChunkStart(timeNow, s, st)))
  {
    if !WithinDuration(s.phases, st.maxChunkDurationInSeconds as real) {
      LongDispatchShape(timeNow, s, st);
    }
  }

  lemma LongDispatchShape(timeNow: int, s: Script, st: Settings)
    requires ValidSettings(st) && !WithinDuration(s.phases, st.maxChunkDurationInSeconds as real)
    ensures var r := Dispatch(timeNow, s, st);
      && Stamped(r, s, Genesis(timeNow, s))
      && ContinuationOf(r[0], s, st, timeNow)
      && StartsFrom(r, 1, ChunkStart(timeNow, s, st))
  {
    var gen := Genesis(timeNow, s);
    var t := ChunkStart(timeNow, s, st);
    var g := s.(genesis := Some(gen));
    var pieces := ScheduleByDuration(timeNow, g, st);
    var chunk := pieces.0;
    assert ChunkStart(timeNow, g, st) == t;
    assert ContinuationOf(pieces.1, s, st, timeNow);
    assert Stamped([pieces.1], s, gen);
    var rest := if WithinRate(chunk.phases, st.maxChunkRequestsPerSecond as real) then [chunk]
                else ScheduleByRate(timeNow, chunk, st);
    assert Dispatch(timeNow, s, st) == [pieces.1] + rest;
    if WithinRate(chunk.phases, st.maxChunkRequestsPerSecond as real) {
      assert Stamped(rest, s, gen) && StartsFrom(rest, 0, t);
    } else {
      assert ChunkStart(timeNow, chunk, st) == t;
      assert Stamped(rest, s, gen) && StartsFrom(rest, 0, t);
    }
    ConsShape(pieces.1, rest, s, gen, t);
  }

  lemma ConsShape(c: Script, rest: seq<Script>, s: Script, gen: int, t: int)
    requires Stamped([c], s, gen) && Stamped(rest, s, gen) && StartsFrom(rest, 0, t)
    ensures Stamped([c] + rest, s, gen) && StartsFrom([c] + rest, 1, t)
    ensures ([c] + rest)[0] == c
  {
    assert forall i :: 1 <= i < |rest| + 1 ==> ([c] + rest)[i] == rest[i - 1];
  }

  /** The clean-up applied to each script of a round. */
  function CleanUp(parts: seq<Script>): (r: seq<Script>)
    ensures |r| == |parts|
    ensures AllNoZeroLoad(r)
    ensures forall i :: 0 <= i < |r| ==> r[i] == parts[i].(phases := r[i].phases)
    ensures forall i :: 0 <= i < |r| ==> r[i].phases == DropZeroLoad(parts[i].phases)
  {
    seq(|parts|, i requires 0 <= i < |parts| => parts[i].(phases := DropZeroLoad(parts[i].phases)))
  }

  /** The clean-up keeps the stamp and the start times. */
  lemma CleanUpKeeps(parts: seq<Script>, s: Script, g: int, from: nat, t: int)
    ensures Stamped(parts, s, g) ==> Stamped(CleanUp(parts), s, g)
    ensures StartsFrom(parts, from, t) ==> StartsFrom(CleanUp(parts), from, t)
  {
  }

  function PlanPerformance(timeNow: int, s: Script, st: Settings): (r: seq<Script>)
    requires ValidSettings(st)
    ensures WithinLimits(s, st) ==> r == [s]
    ensures !WithinLimits(s, st) ==>
              && |r| >= 2
              && AllNoZeroLoad(r)
              && Stamped(r, s, Genesis(timeNow, s))
    ensures !WithinDuration(s.phases, st.maxChunkDurationInSeconds as real) ==>
              && r[0].start == Some(ChunkStart(timeNow, s, st) + st.maxChunkDurationInSeconds * 1000)
              && r[0].phases == DropZeroLoad(SplitPhasesByDuration(s.phases, st.maxChunkDurationInSeconds as real).1)
              && StartsFrom(r, 1, ChunkStart(timeNow, s, st))
    ensures !WithinLimits(s, st) && WithinDuration(s.phases, st.maxChunkDurationInSeconds as real) ==>
              StartsFrom(r, 0, ChunkStart(timeNow, s, st))
  {
    if WithinLimits(s, st) then [s]
    else
      var parts := Dispatch(timeNow, s, st);
      DispatchShape(timeNow, s, st);
      CleanUpKeeps(parts, s, Genesis(timeNow, s), 1, ChunkStart(timeNow, s, st));
      CleanUpKeeps(parts, s, Genesis(timeNow, s), 0, ChunkStart(timeNow, s, st));
      CleanUp(parts)
  }

  /** From position `off` on, the scripts carry the phase lists `lists`
      cleaned up, one each and in order. */
  predicate CleanedFrom(r: seq<Script>, off: nat, lists: seq<seq<Phase>>) {
    |r| == off + |lists| && forall i :: 0 <= i < |lists| ==> r[off + i].phases == DropZeroLoad(lists[i])
  }

  /** What each script of a round runs. A too-long script whose chunk is
      within the rate ceiling gives exactly two scripts, the continuation
      and the cleaned chunk; a chunk above the ceiling gives the cleaned
      rate parts of the chunk after the continuation; a script short enough
      but too fast gives the cleaned rate parts of its own phases. */
  lemma PlanPerformancePhases(timeNow: int, s: Script, st: Settings)
    requires ValidSettings(st)
    ensures var r, max := PlanPerformance(timeNow, s, st), st.maxChunkDurationInSeconds as real;
      var chunk, m := SplitPhasesByDuration(s.phases, max).0, st.maxChunkRequestsPerSecond;
      && (!WithinDuration(s.phases, max) && WithinRate(chunk, m as real) ==> CleanedFrom(r, 1, [chunk]))
      && (!WithinDuration(s.phases, max) && !WithinRate(chunk, m as real) ==> CleanedFrom(r, 1, RateParts(chunk, m)))
      && (WithinDuration(s.phases, max) && !WithinLimits(s, st) ==> CleanedFrom(r, 0, RateParts(s.phases, m)))
  {
    if !WithinLimits(s, st) {
      var parts := Dispatch(timeNow, s, st);
      DispatchPhases(timeNow, s, st);
      var max, m := st.maxChunkDurationInSeconds as real, st.maxChunkRequestsPerSecond;
      var chunk := SplitPhasesByDuration(s.phases, max).0;
      if !WithinDuration(s.phases, max) {
        if WithinRate(chunk, m as real) {
          CleanUpCleans(parts, 1, [chunk]);
        } else {
          CleanUpCleans(parts, 1, RateParts(chunk, m));
        }
      } else {
        CleanUpCleans(parts, 0, RateParts(s.phases, m));
      }
    }
  }

  /** The phase lists of a round before the clean-up. */
  lemma DispatchPhases(timeNow: int, s: Script, st: Settings)
    requires ValidSettings(st)
    ensures var r, max := Dispatch(timeNow, s, st), st.maxChunkDurationInSeconds as real;
      var chunk, m := SplitPhasesByDuration(s.phases, max).0, st.maxChunkRequestsPerSecond;
      && (!WithinDuration(s.phases, max) && WithinRate(chunk, m as real) ==> PhasesFrom(r, 1, [chunk]))
      && (!WithinDuration(s.phases, max) && !WithinRate(chunk, m as real) ==> PhasesFrom(r, 1, RateParts(chunk, m)))
      && (WithinDuration(s.phases, max) ==> PhasesFrom(r, 0, RateParts(s.phases, m)))
  {
    var g := s.(genesis := Some(Genesis(timeNow, s)));
    var max, m := st.maxChunkDurationInSeconds as real, st.maxChunkRequestsPerSecond;
    if !WithinDuration(s.phases, max) {
      var pieces := ScheduleByDuration(timeNow, g, st);
      var chunk := pieces.0;
      if !WithinRate(chunk.phases, m as real) {
        var rest := ScheduleByRate(timeNow, chunk, st);
        ScheduleByRatePhases(timeNow, chunk, st);
        assert Dispatch(timeNow, s, st) == [pieces.1] + rest;
        assert forall i :: 0 <= i < |rest| ==> ([pieces.1] + rest)[1 + i] == rest[i];
      }
    } else {
      ScheduleByRatePhases(timeNow, g, st);
    }
  }

  lemma CleanUpCleans(parts: seq<Script>, off: nat, lists: seq<seq<Phase>>)
    requires PhasesFrom(parts, off, lists)
    ensures CleanedFrom(CleanUp(parts), off, lists)
  {
  }

  /** A script as the loader produces it: well-formed phases lasting whole
      seconds. */
  predicate Loadable(ps: seq<Phase>) {
    AllWellFormed(ps) && WholeDurations(ps)
  }

  lemma WellFormedNonNegative(ps: seq<Phase>)
    requires AllWellFormed(ps)
    ensures NonNegativeDurations(ps) && NoInvalid(ps)
    ensures ScriptDuration(ps) == Ok(TotalDuration(ps))
  {
    WellFormedQueriesOk(ps);
  }

  /** A loadable list no longer than the limit passes the duration check. */
  lemma LoadableWithinDuration(ps: seq<Phase>, limit: real)
    requires AllWellFormed(ps) && TotalDuration(ps) <= limit
    ensures WithinDuration(ps, limit)
  {
    WellFormedNonNegative(ps);
  }

  /** The clean-up keeps a loadable list loadable and within both limits. */
  lemma DropZeroLoadKeepsLimits(ps: seq<Phase>, maxSeconds: real, maxRate: real)
    requires Loadable(ps) && maxRate >= 0.0
    requires WithinDuration(ps, maxSeconds) && WithinRate(ps, maxRate)
    ensures Loadable(DropZeroLoad(ps))
    ensures WithinDuration(DropZeroLoad(ps), maxSeconds) && WithinRate(DropZeroLoad(ps), maxRate)
  {
    var r := DropZeroLoad(ps);
    DropZeroLoadMembers(ps);
    forall j | 0 <= j < |r|
      ensures WellFormed(r[j]) && Whole(PhaseDuration(r[j])) && PhaseRps(r[j]) <= maxRate
    {
      assert r[j] in ps;
      var k :| 0 <= k < |ps| && ps[k] == r[j];
    }
    WellFormedNonNegative(ps);
    WellFormedNonNegative(r);
    DropZeroLoadKeepsDuration(ps);
    AllAtMostIsWithinRate(r, maxRate);
  }

  /** Before the clean-up: every script of the round is loadable, and every
      one that runs now (all but a continuation) is within both limits. */
  lemma DispatchWithinLimits(timeNow: int, s: Script, st: Settings)
    requires ValidSettings(st) && Loadable(s.phases) && !WithinLimits(s, st)
    ensures var r := Dispatch(timeNow, s, st);
      forall i :: 0 <= i < |r| ==>
        && Loadable(r[i].phases)
        && (i >= 1 || WithinDuration(s.phases, st.maxChunkDurationInSeconds as real) ==> WithinLimits(r[i], st))
  {
    var max := st.maxChunkDurationInSeconds as real;
    var g := s.(genesis := Some(Genesis(timeNow, s)));
    if !WithinDuration(s.phases, max) {
      LongDispatchWithinLimits(timeNow, s, st);
      var r := Dispatch(timeNow, s, st);
      assert forall i :: 1 <= i < |r| ==> r[i] == r[1..][i - 1];
    } else {
      PartsWithinLimits(timeNow, g, st);
    }
  }

  /** The rate split of a loadable script no longer than the duration limit
      gives loadable parts within both limits. */
  lemma PartsWithinLimits(timeNow: int, s: Script, st: Settings)
    requires ValidSettings(st) && Loadable(s.phases)
    requires TotalDuration(s.phases) <= st.maxChunkDurationInSeconds as real
    ensures var parts := ScheduleByRate(timeNow, s, st);
      forall i :: 0 <= i < |parts| ==> Loadable(parts[i].phases) && WithinLimits(parts[i], st)
  {
    var parts := ScheduleByRate(timeNow, s, st);
    WellFormedNonNegative(s.phases);
    forall i | 0 <= i < |parts|
      ensures Loadable(parts[i].phases) && WithinLimits(parts[i], st)
    {
      LoadableWithinDuration(parts[i].phases, st.maxChunkDurationInSeconds as real);
    }
  }

  /** Both halves of the duration split of a loadable script are loadable,
      and the chunk is exactly the duration limit long. */
  lemma DurationPiecesLoadable(timeNow: int, s: Script, st: Settings)
    requires ValidSettings(st) && Loadable(s.phases)
    requires !WithinDuration(s.phases, st.maxChunkDurationInSeconds as real)
    ensures var pieces := ScheduleByDuration(timeNow, s, st);
      && Loadable(pieces.0.phases) && Loadable(pieces.1.phases)
      && TotalDuration(pieces.0.phases) == st.maxChunkDurationInSeconds as real
  {
    var max := st.maxChunkDurationInSeconds as real;
    WellFormedNonNegative(s.phases);
    WholeInt(st.maxChunkDurationInSeconds);
    SplitPhasesByDurationKeepsWellFormed(s.phases, max);
    SplitPhasesByDurationKeepsWhole(s.phases, max);
    SplitPhasesByDurationConserves(s.phases, max);
  }

  predicate AllRunnable(r: seq<Script>, st: Settings) {
    forall i :: 0 <= i < |r| ==> Loadable(r[i].phases) && WithinLimits(r[i], st)
  }

  lemma LongDispatchWithinLimits(timeNow: int, s: Script, st: Settings)
    requires ValidSettings(st) && Loadable(s.phases)
    requires !WithinDuration(s.phases, st.maxChunkDurationInSeconds as real)
    ensures Loadable(Dispatch(timeNow, s, st)[0].phases)
    ensures AllRunnable(Dispatch(timeNow, s, st)[1..], st)
  {
    var g := s.(genesis := Some(Genesis(timeNow, s)));
    var pieces := ScheduleByDuration(timeNow, g, st);
    var chunk := pieces.0;
    DurationPiecesLoadable(timeNow, g, st);
    var rest := if WithinRate(chunk.phases, st.maxChunkRequestsPerSecond as real) then [chunk]
                else ScheduleByRate(timeNow, chunk, st);
    assert Dispatch(timeNow, s, st) == [pieces.1] + rest;
    if WithinRate(chunk.phases, st.maxChunkRequestsPerSecond as real) {
      LoadableWithinDuration(chunk.phases, st.maxChunkDurationInSeconds as real);
      assert AllRunnable(rest, st);
    } else {
      PartsWithinLimits(timeNow, chunk, st);
      assert AllRunnable(rest, st);
    }
    assert ([pieces.1] + rest)[1..] == rest;
  }

  /** Every script `planPerformance` hands back for a loadable script is
      loadable; every one but a continuation runs within both limits, and
      a continuation carries exactly the seconds the chunk did not. */
  lemma PlanPerformanceWithinLimits(timeNow: int, s: Script, st: Settings)
    requires ValidSettings(st) && Loadable(s.phases)
    ensures var r := PlanPerformance(timeNow, s, st);
      forall i :: 0 <= i < |r| ==>
        && Loadable(r[i].phases)
        && (i >= 1 || WithinDuration(s.phases, st.maxChunkDurationInSeconds as real) ==> WithinLimits(r[i], st))
    ensures !WithinDuration(s.phases, st.maxChunkDurationInSeconds as real) ==>
              TotalDuration(PlanPerformance(timeNow, s, st)[0].phases)
                == TotalDuration(s.phases) - st.maxChunkDurationInSeconds as real
  {
    if !WithinLimits(s, st) {
      var parts := Dispatch(timeNow, s, st);
      var r := PlanPerformance(timeNow, s, st);
      DispatchWithinLimits(timeNow, s, st);
      forall i | 0 <= i < |r|
        ensures Loadable(r[i].phases)
        ensures i >= 1 || WithinDuration(s.phases, st.maxChunkDurationInSeconds as real) ==> WithinLimits(r[i], st)
      {
        var ps := parts[i].phases;
        assert r[i].phases == DropZeroLoad(ps);
        if i >= 1 || WithinDuration(s.phases, st.maxChunkDurationInSeconds as real) {
          DropZeroLoadKeepsLimits(ps, st.maxChunkDurationInSeconds as real, st.maxChunkRequestsPerSecond as real);
        } else {
          DropZeroLoadLoadable(ps);
        }
      }
      if !WithinDuration(s.phases, st.maxChunkDurationInSeconds as real) {
        WellFormedNonNegative(s.phases);
        SplitPhasesByDurationConserves(s.phases, st.maxChunkDurationInSeconds as real);
        DropZeroLoadKeepsDuration(SplitPhasesByDuration(s.phases, st.maxChunkDurationInSeconds as real).1);
      }
    }
  }

  lemma DropZeroLoadLoadable(ps: seq<Phase>)
    requires Loadable(ps)
    ensures Loadable(DropZeroLoad(ps))
  {
    var r := DropZeroLoad(ps);
    DropZeroLoadMembers(ps);
    forall j | 0 <= j < |r|
      ensures WellFormed(r[j]) && Whole(PhaseDuration(r[j]))
    {
      assert r[j] in ps;
      var k :| 0 <= k < |ps| && ps[k] == r[j];
    }
  }

  /** Planning rounds a whole-second script of `total` seconds needs on the
      duration side: one per started chunk. */
  function Rounds(total: nat, maxSeconds: nat): (n: nat)
    requires maxSeconds >= 1
    decreases total
    ensures n >= 1 && total <= n * maxSeconds
    ensures n == 1 || (n - 1) * maxSeconds < total
  {
    if total <= maxSeconds then 1 else 1 + Rounds(total - maxSeconds, maxSeconds)
  }

  /** Re-submitting the continuation needs exactly one round less. The
      first conjunct is the substance: the continuation is the script
      shortened by exactly one chunk, so by induction on the rounds a
      script is fully dispatched after `Rounds` planning rounds; the second
      conjunct is the matching step of `Rounds` itself. */
  lemma ContinuationNeedsOneRoundLess(timeNow: int, s: Script, st: Settings, total: nat)
    requires ValidSettings(st) && Loadable(s.phases)
    requires TotalDuration(s.phases) == total as real && total > st.maxChunkDurationInSeconds
    ensures var rest := PlanPerformance(timeNow, s, st)[0];
      && TotalDuration(rest.phases) == (total - st.maxChunkDurationInSeconds) as real
      && Rounds(total - st.maxChunkDurationInSeconds, st.maxChunkDurationInSeconds) + 1
           == Rounds(total, st.maxChunkDurationInSeconds)
  {
    WellFormedNonNegative(s.phases);
    PlanPerformanceWithinLimits(timeNow, s, st);
  }
}
