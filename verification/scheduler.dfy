/** Scheduling: the two split strategies with `_start` stamps. A duration
    split runs its pieces one after the other; a rate split runs all its
    parts at once. Times are milliseconds since the epoch. */
module Scheduler {
  import opened Wrappers
  import opened Numbers
  import opened Phases
  import opened Scripts
  import opened DurationSplitter
  import opened RateSplitter

  /** Start for a freshly scheduled chunk: the script's own `_start`, or
      the current time plus the settings' buffer. */
  function ChunkStart(timeNow: int, s: Script, st: Settings): (t: int)
    ensures s.start.Some? ==> t == s.start.value
    ensures s.start.None? ==> t == timeNow + st.timeBufferInMilliseconds
  {
    s.start.GetOr(timeNow + st.timeBufferInMilliseconds)
  }

  /** `splitScriptByDurationInSecondsAndSchedule`: the chunk keeps or gets
      a start, the remainder starts a full chunk length later. */
  function ScheduleByDuration(timeNow: int, s: Script, st: Settings): (r: (Script, Script))
    ensures (r.0.phases, r.1.phases) == SplitPhasesByDuration(s.phases, st.maxChunkDurationInSeconds as real)
    ensures r.0 == s.(phases := r.0.phases, start := r.0.start)
    ensures r.1 == s.(phases := r.1.phases, start := r.1.start)
    ensures s.start.Some? ==> r.0.start == s.start
    ensures s.start.None? ==> r.0.start == Some(timeNow + st.timeBufferInMilliseconds)
    ensures r.1.start == Some(r.0.start.value + st.maxChunkDurationInSeconds * 1000)
  {
    var parts := SplitScriptByDuration(s, st.maxChunkDurationInSeconds as real);
    var start := ChunkStart(timeNow, s, st);
    (parts.0.(start := Some(start)),
     parts.1.(start := Some(start + st.maxChunkDurationInSeconds * 1000)))
  }

  /** When a script is longer than a chunk, the chunk lasts exactly the
      maximum and the remainder begins the moment the chunk ends. */
  lemma ScheduleByDurationBackToBack(timeNow: int, s: Script, st: Settings)
    requires NonNegativeDurations(s.phases)
    requires TotalDuration(s.phases) >= st.maxChunkDurationInSeconds as real
    ensures var r := ScheduleByDuration(timeNow, s, st);
      && TotalDuration(r.0.phases) == st.maxChunkDurationInSeconds as real
      && TotalDuration(r.1.phases) == TotalDuration(s.phases) - st.maxChunkDurationInSeconds as real
      && r.1.start.value as real == r.0.start.value as real + TotalDuration(r.0.phases) * 1000.0
  {
    SplitPhasesByDurationConserves(s.phases, st.maxChunkDurationInSeconds as real);
  }

  /** Every part passes the rate check at ceiling `m`. */
  predicate AllWithinRate(parts: seq<seq<Phase>>, m: real) {
    forall i :: 0 <= i < |parts| ==> WithinRate(parts[i], m)
  }

  /** Every part is free of invalid phases and lasts `total` seconds. */
  predicate AllCover(parts: seq<seq<Phase>>, total: real) {
    forall i :: 0 <= i < |parts| ==> NoInvalid(parts[i]) && TotalDuration(parts[i]) == total
  }

  /** Every part is well-formed and lasts whole seconds. */
  predicate AllSound(parts: seq<seq<Phase>>) {
    forall i :: 0 <= i < |parts| ==> AllWellFormed(parts[i]) && WholeDurations(parts[i])
  }

  /** The repeated rate split: split, keep the chunk, and split the
      remainder again while it is still above the ceiling. */
  function RateParts(phases: seq<Phase>, m: nat): (parts: seq<seq<Phase>>)
    requires m >= 1
    decreases PeakCeil(phases)
    ensures 2 <= |parts| <= PeakCeil(phases) / m + 2
    ensures AllWithinRate(parts, m as real)
  {
    WholeInt(m);
    var split := SplitPhasesByRate(phases, m as real);
    SplitPhasesByRateChunkAtMost(phases, m as real);
    if WithinRate(split.1, m as real) then
      WithinRateCons(split.0, [split.1], m as real);
      DivAtLeast(PeakCeil(phases), 0, m);
      [split.0] + [split.1]
    else
      SplitPhasesByRateRemainderShrinks(phases, m as real);
      var rest := RateParts(split.1, m);
      WithinRateCons(split.0, rest, m as real);
      PartCountStep(|rest|, PeakCeil(split.1), PeakCeil(phases), m);
      [split.0] + rest
  }

  /** One more part for a peak lowered by at least the ceiling stays
      within the count bound of the higher peak. */
  lemma PartCountStep(restLen: nat, lower: nat, upper: nat, m: nat)
    requires m >= 1 && lower + m <= upper && restLen <= lower / m + 2
    ensures restLen + 1 <= upper / m + 2
  {
    var q := lower / m;
    assert q * m <= lower;
    assert (q + 1) * m == q * m + m;
    DivAtLeast(upper, q + 1, m);
  }

  /** `k` ceilings fit in `n` only if `n / m` is at least `k`. */
  lemma DivAtLeast(n: nat, k: nat, m: nat)
    requires m >= 1 && k * m <= n
    ensures k <= n / m
  {
    var r := n / m;
    assert n == r * m + n % m && n % m < m;
    assert (r + 1) * m == r * m + m;
    if r < k {
      MulMonotone(r + 1, k, m);
    }
  }

  lemma MulMonotone(x: nat, y: nat, m: nat)
    requires x <= y
    ensures x * m <= y * m
  {
    assert y * m - x * m == (y - x) * m;
  }

  lemma WithinRateCons(c: seq<Phase>, rest: seq<seq<Phase>>, m: real)
    requires WithinRate(c, m) && AllWithinRate(rest, m)
    ensures AllWithinRate([c] + rest, m)
  {
    assert forall i :: 1 <= i < |rest| + 1 ==> ([c] + rest)[i] == rest[i - 1];
  }

  /** Every part runs for the whole length of the script. */
  lemma {:induction false} RatePartsCoverDuration(phases: seq<Phase>, m: nat)
    requires m >= 1 && NoInvalid(phases)
    ensures AllCover(RateParts(phases, m), TotalDuration(phases))
    decreases PeakCeil(phases)
  {
    WholeInt(m);
    var split := SplitPhasesByRate(phases, m as real);
    ValidSplitFacts(phases, m as real);
    if !WithinRate(split.1, m as real) {
      SplitPhasesByRateRemainderShrinks(phases, m as real);
      RatePartsCoverDuration(split.1, m);
      CoverCons(split.0, RateParts(split.1, m), TotalDuration(phases));
    }
  }

  lemma CoverCons(c: seq<Phase>, rest: seq<seq<Phase>>, total: real)
    requires NoInvalid(c) && TotalDuration(c) == total && AllCover(rest, total)
    ensures AllCover([c] + rest, total)
  {
    assert forall i :: 1 <= i < |rest| + 1 ==> ([c] + rest)[i] == rest[i - 1];
  }

  lemma SoundCons(c: seq<Phase>, rest: seq<seq<Phase>>)
    requires AllWellFormed(c) && WholeDurations(c) && AllSound(rest)
    ensures AllSound([c] + rest)
  {
    assert forall i :: 1 <= i < |rest| + 1 ==> ([c] + rest)[i] == rest[i - 1];
  }

  /** Well-formed whole-second phases stay so in every part. */
  lemma {:induction false} RatePartsSound(phases: seq<Phase>, m: nat)
    requires m >= 1 && AllWellFormed(phases) && WholeDurations(phases)
    ensures AllSound(RateParts(phases, m))
    decreases PeakCeil(phases)
  {
    WholeInt(m);
    var split := SplitPhasesByRate(phases, m as real);
    SoundSplitFacts(phases, m);
    if !WithinRate(split.1, m as real) {
      SplitPhasesByRateRemainderShrinks(phases, m as real);
      RatePartsSound(split.1, m);
      SoundCons(split.0, RateParts(split.1, m));
    }
  }

  lemma SoundSplitFacts(ps: seq<Phase>, m: nat)
    ensures AllWellFormed(ps) && WholeDurations(ps) ==> SoundPieces(SplitPhasesByRate(ps, m as real))
  {
    if AllWellFormed(ps) && WholeDurations(ps) {
      WholeInt(m);
      SplitPhasesByRateKeepsWellFormed(ps, m as real);
    }
  }

  lemma ValidSplitFacts(ps: seq<Phase>, m: real)
    ensures NoInvalid(ps) ==>
              && TotalDuration(SplitPhasesByRate(ps, m).0) == TotalDuration(ps)
              && TotalDuration(SplitPhasesByRate(ps, m).1) == TotalDuration(ps)
              && NoInvalid(SplitPhasesByRate(ps, m).0) && NoInvalid(SplitPhasesByRate(ps, m).1)
  {
    if NoInvalid(ps) {
      SplitPhasesByRateCoversDuration(ps, m);
      SplitPhasesByRateStaysValid(ps, m);
    }
  }

  /** From position `off` on, the scripts carry the phase lists `lists`,
      one each and in order. */
  predicate PhasesFrom(r: seq<Script>, off: nat, lists: seq<seq<Phase>>) {
    |r| == off + |lists| && forall i :: 0 <= i < |lists| ==> r[off + i].phases == lists[i]
  }

  /** `splitScriptByRequestsPerSecondAndSchedule`: every part runs from the
      same start, and every part is within the rate ceiling. */
  function ScheduleByRate(timeNow: int, s: Script, st: Settings): (r: seq<Script>)
    requires ValidSettings(st)
    ensures |r| >= 2
    ensures forall i :: 0 <= i < |r| ==> r[i] == s.(phases := r[i].phases, start := r[i].start)
    ensures forall i :: 0 <= i < |r| ==> r[i].start == Some(ChunkStart(timeNow, s, st))
    ensures forall i :: 0 <= i < |r| ==> WithinRate(r[i].phases, st.maxChunkRequestsPerSecond as real)
    ensures NoInvalid(s.phases) ==>
              forall i :: 0 <= i < |r| ==> NoInvalid(r[i].phases) && TotalDuration(r[i].phases) == TotalDuration(s.phases)
    ensures AllWellFormed(s.phases) && WholeDurations(s.phases) ==>
              forall i :: 0 <= i < |r| ==> AllWellFormed(r[i].phases) && WholeDurations(r[i].phases)
  {
    var parts := RateParts(s.phases, st.maxChunkRequestsPerSecond);
    PartFacts(s.phases, st.maxChunkRequestsPerSecond);
    Stamp(s, parts, ChunkStart(timeNow, s, st))
  }

  /** One copy of `s` per phase list, all starting at `start`. */
  function Stamp(s: Script, parts: seq<seq<Phase>>, start: int): (r: seq<Script>)
    ensures |r| == |parts|
    ensures forall i :: 0 <= i < |r| ==> r[i] == s.(phases := parts[i], start := Some(start))
  {
    seq(|parts|, i requires 0 <= i < |parts| => s.(phases := parts[i], start := Some(start)))
  }

  /** The scheduled parts carry the rate parts of the script's phases, one
      each and in order. */
  lemma ScheduleByRatePhases(timeNow: int, s: Script, st: Settings)
    requires ValidSettings(st)
    ensures PhasesFrom(ScheduleByRate(timeNow, s, st), 0, RateParts(s.phases, st.maxChunkRequestsPerSecond))
  {
  }

  lemma PartFacts(phases: seq<Phase>, m: nat)
    requires m >= 1
    ensures NoInvalid(phases) ==> AllCover(RateParts(phases, m), TotalDuration(phases))
    ensures AllWellFormed(phases) && WholeDurations(phases) ==> AllSound(RateParts(phases, m))
  {
    if NoInvalid(phases) {
      RatePartsCoverDuration(phases, m);
    }
    if AllWellFormed(phases) && WholeDurations(phases) {
      RatePartsSound(phases, m);
    }
  }
}
