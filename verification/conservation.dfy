/** What the rate split keeps. When no ramp of a phase list straddles a
    multiple of the ceiling, every split is a plain subtraction, so the
    parts of the repeated rate split, run side by side, carry phase by
    phase and at every instant exactly the rate the original asks for. */
module LoadConservation {
  import opened Numbers
  import opened Phases
  import opened Scripts
  import opened RateSplitter
  import opened Scheduler

  /** No multiple of the ceiling `m` lies strictly between the two ends of
      the phase: a ramp stays inside one band `[k * m, (k + 1) * m]`. */
  predicate Banded(p: Phase, m: real) {
    m > 0.0 &&
    (p.Ramp? ==> Max(p.arrivalRate, p.rampTo) <= ((Min(p.arrivalRate, p.rampTo) / m).Floor + 1) as real * m)
  }

  /** A valid phase list all of whose ramps are banded. */
  predicate AllBanded(ps: seq<Phase>, m: real) {
    m > 0.0 && forall j :: 0 <= j < |ps| ==> !ps[j].Invalid? && Banded(ps[j], m)
  }

  /** A banded phase never crosses the ceiling itself. */
  lemma BandedDoesNotCross(p: Phase, m: real)
    requires Banded(p, m)
    ensures !Crosses(p, m)
  {
    if p.Ramp? {
      var lo := Min(p.arrivalRate, p.rampTo);
      var k := (lo / m).Floor;
      BandBounds(lo, m);
      if k <= 0 {
        ScaleMonotone((k + 1) as real, 1.0, m);
      } else {
        ScaleMonotone(1.0, k as real, m);
      }
    }
  }

  lemma ScaleMonotone(x: real, y: real, m: real)
    requires x <= y && m > 0.0
    ensures x * m <= y * m
    ensures x < y ==> x * m < y * m
  {
    assert y * m - x * m == (y - x) * m;
  }

  /** The band of `x`: `k * m <= x < (k + 1) * m` for `k` the floor of `x / m`. */
  lemma BandBounds(x: real, m: real)
    requires m > 0.0
    ensures (x / m).Floor as real * m <= x < ((x / m).Floor + 1) as real * m
  {
    var k := (x / m).Floor;
    assert (x / m) * m == x;
    ScaleMonotone(k as real, x / m, m);
    assert x / m < k as real + 1.0;
    ScaleMonotone(x / m, k as real + 1.0, m);
    assert x < (k as real + 1.0) * m;
    assert (k + 1) as real == k as real + 1.0;
  }

  /** Taking the ceiling off both ends moves a ramp down one band. */
  lemma BandShift(lo: real, hi: real, m: real)
    requires m > 0.0 && hi <= ((lo / m).Floor + 1) as real * m
    ensures hi - m <= (((lo - m) / m).Floor + 1) as real * m
  {
    var k := (lo / m).Floor;
    assert (lo - m) / m == lo / m - m / m && m / m == 1.0;
    FloorShift(lo / m);
    assert (k + 1) as real * m == k as real * m + m;
  }

  /** Outside a crossing, the remainder of a banded phase is one banded
      valid phase. */
  lemma SplitPhaseByRateKeepsBanded(p: Phase, m: real)
    requires m >= 1.0 && !p.Invalid? && Banded(p, m)
    ensures |SplitPhaseByRate(p, m).1| == 1
    ensures !SplitPhaseByRate(p, m).1[0].Invalid? && Banded(SplitPhaseByRate(p, m).1[0], m)
  {
    BandedDoesNotCross(p, m);
    SplitPhaseByRateConservesRate(p, m, 0.0);
    SplitPhaseByRateStaysValid(p, m);
    match Normalize(p)
    case Ramp(d, a, z) =>
      if Min(a, z) >= m {
        assert SplitPhaseByRate(p, m).1[0] == Ramp(d, a - m, z - m);
        assert Min(a - m, z - m) == Min(a, z) - m && Max(a - m, z - m) == Max(a, z) - m;
        BandShift(Min(a, z), Max(a, z), m);
      }
    case _ =>
  }

  /** The chunk and the remainder have one phase per input phase, and at
      every instant the two together carry that phase's rate. */
  ghost predicate PairCarries(r: (seq<Phase>, seq<Phase>), ps: seq<Phase>) {
    && |r.0| == |ps| && |r.1| == |ps|
    && forall i, t :: 0 <= i < |ps| ==> RateAt(r.0[i], t) + RateAt(r.1[i], t) == RateAt(ps[i], t)
  }

  /** One rate split of a banded list conserves the rate of every phase,
      and leaves a banded remainder. */
  lemma {:induction false} SplitPhasesByRateCarries(ps: seq<Phase>, m: real)
    requires m >= 1.0 && AllBanded(ps, m)
    ensures PairCarries(SplitPhasesByRate(ps, m), ps)
    ensures AllBanded(SplitPhasesByRate(ps, m).1, m)
  {
    if ps != [] {
      var p, rest := ps[0], ps[1..];
      var head, tail := SplitPhaseByRate(p, m), SplitPhasesByRate(rest, m);
      assert AllBanded(rest, m) by {
        assert forall j :: 0 <= j < |rest| ==> rest[j] == ps[j + 1];
      }
      SplitPhasesByRateCarries(rest, m);
      SplitPhaseByRateKeepsBanded(p, m);
      BandedDoesNotCross(p, m);
      PairCarriesCons(p, head, tail, rest, m);
      assert ps == [p] + rest;
    }
  }

  lemma PairCarriesCons(p: Phase, head: (seq<Phase>, seq<Phase>), tail: (seq<Phase>, seq<Phase>), rest: seq<Phase>, m: real)
    requires m >= 1.0 && !p.Invalid? && !Crosses(p, m) && head == SplitPhaseByRate(p, m)
    requires |head.1| == 1 && !head.1[0].Invalid? && Banded(head.1[0], m)
    requires PairCarries(tail, rest) && AllBanded(tail.1, m)
    ensures PairCarries(Join(head, tail), [p] + rest)
    ensures AllBanded(Join(head, tail).1, m)
  {
    var r, ps := Join(head, tail), [p] + rest;
    forall i, t | 0 <= i < |ps|
      ensures RateAt(r.0[i], t) + RateAt(r.1[i], t) == RateAt(ps[i], t)
    {
      if i == 0 {
        SplitPhaseByRateConservesRate(p, m, t);
      } else {
        assert r.0[i] == tail.0[i - 1] && r.1[i] == tail.1[i - 1] && ps[i] == rest[i - 1];
      }
    }
    assert forall j :: 1 <= j < |r.1| ==> r.1[j] == tail.1[j - 1];
  }

  /** Rate of phase `i` summed over all the parts. */
  function SumRate(parts: seq<seq<Phase>>, i: nat, t: real): real {
    if parts == [] then 0.0
    else (if i < |parts[0]| then RateAt(parts[0][i], t) else 0.0) + SumRate(parts[1..], i, t)
  }

  /** Every part has one phase per input phase, and at every instant the
      parts together carry the rate of each input phase. */
  ghost predicate Carries(parts: seq<seq<Phase>>, ps: seq<Phase>) {
    && (forall j :: 0 <= j < |parts| ==> |parts[j]| == |ps|)
    && forall i, t :: 0 <= i < |ps| ==> SumRate(parts, i, t) == RateAt(ps[i], t)
  }

  /** A list on its own carries itself. */
  lemma CarriesSelf(ps: seq<Phase>)
    ensures Carries([ps], ps)
  {
    assert [ps][1..] == [];
  }

  /** Putting a chunk in front of parts that carry the remainder gives
      parts that carry the whole. */
  lemma CarriesCons(c: seq<Phase>, rem: seq<Phase>, rest: seq<seq<Phase>>, ps: seq<Phase>)
    requires PairCarries((c, rem), ps) && Carries(rest, rem)
    ensures Carries([c] + rest, ps)
  {
    var parts := [c] + rest;
    assert parts[1..] == rest;
    assert forall j :: 1 <= j < |parts| ==> parts[j] == rest[j - 1];
  }

  /** The repeated rate split conserves load: the parts it returns, run
      side by side, ask at every instant for exactly what each phase of a
      banded list asks for. */
  lemma {:induction false} RatePartsCarryLoad(ps: seq<Phase>, m: nat)
    requires m >= 1 && AllBanded(ps, m as real)
    ensures Carries(RateParts(ps, m), ps)
    decreases PeakCeil(ps)
  {
    WholeInt(m);
    var split := SplitPhasesByRate(ps, m as real);
    SplitPhasesByRateCarries(ps, m as real);
    if WithinRate(split.1, m as real) {
      CarriesSelf(split.1);
      CarriesCons(split.0, split.1, [split.1], ps);
      assert RateParts(ps, m) == [split.0] + [split.1];
    } else {
      SplitPhasesByRateRemainderShrinks(ps, m as real);
      RatePartsCarryLoad(split.1, m);
      CarriesCons(split.0, split.1, RateParts(split.1, m), ps);
    }
  }

  /** The phase lists of a sequence of scripts. */
  function PhaseLists(r: seq<Script>): (lists: seq<seq<Phase>>)
    ensures |lists| == |r|
    ensures forall i :: 0 <= i < |r| ==> lists[i] == r[i].phases
  {
    seq(|r|, i requires 0 <= i < |r| => r[i].phases)
  }

  /** The scripts scheduled by rate carry, between them, the load of the
      script they came from. */
  lemma ScheduleByRateCarriesLoad(timeNow: int, s: Script, st: Settings)
    requires ValidSettings(st) && AllBanded(s.phases, st.maxChunkRequestsPerSecond as real)
    ensures Carries(PhaseLists(ScheduleByRate(timeNow, s, st)), s.phases)
  {
    ScheduleByRatePhases(timeNow, s, st);
    RatePartsCarryLoad(s.phases, st.maxChunkRequestsPerSecond);
    assert PhaseLists(ScheduleByRate(timeNow, s, st)) == RateParts(s.phases, st.maxChunkRequestsPerSecond);
  }
}
