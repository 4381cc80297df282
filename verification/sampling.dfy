/** Sampling mode: synthetic monitoring fans a script out into one probe
    script per scenario, each a short random pause and then a single
    arrival. The random pauses are drawn by the caller and passed in. */
module SamplingPlanner {
  import opened Wrappers
  import opened Numbers
  import opened Phases
  import opened Scripts

  /** The phase that sends exactly one request. */
  const SingleArrival: Phase := Constant(1.0, 1.0)

  /** The invocation type of a sampling dispatch: synchronous. */
  const RequestResponse: string := "RequestResponse"

  /** A pause the configuration allows: within the variance of the average. */
  predicate PauseInRange(cfg: SamplingConfig, pause: real) {
    cfg.averagePause - cfg.pauseVariance <= pause <= cfg.averagePause + cfg.pauseVariance
  }

  predicate AllPausesInRange(cfg: SamplingConfig, pauses: seq<real>) {
    forall i :: 0 <= i < |pauses| ==> PauseInRange(cfg, pauses[i])
  }

  /** `generateSamplingPhases`: `size` pairs of a drawn pause followed by a
      single arrival. */
  function GenerateSamplingPhases(cfg: SamplingConfig, pauses: seq<real>): (r: seq<Phase>)
    requires |pauses| == cfg.size
    decreases |pauses|
    ensures |r| == 2 * cfg.size
    ensures forall i :: 0 <= i < cfg.size ==> r[2 * i] == Pause(pauses[i]) && r[2 * i + 1] == SingleArrival
  {
    if pauses == [] then []
    else
      var rest := GenerateSamplingPhases(cfg.(size := cfg.size - 1), pauses[1..]);
      assert forall i :: 1 <= i < cfg.size ==> pauses[1..][i - 1] == pauses[i];
      [Pause(pauses[0]), SingleArrival] + rest
  }

  /** The generated phases alternate: every pause is one the configuration
      allows, every other phase sends exactly one request, and a non-empty
      sample peaks at one request per second. */
  lemma SamplingPhasesShape(cfg: SamplingConfig, pauses: seq<real>)
    requires |pauses| == cfg.size && AllPausesInRange(cfg, pauses)
    ensures var r := GenerateSamplingPhases(cfg, pauses);
      forall j :: 0 <= j < |r| ==>
        (r[j].Pause? ==> PauseInRange(cfg, r[j].pause)) && (!r[j].Pause? ==> r[j] == SingleArrival)
    ensures cfg.size > 0 && (forall i :: 0 <= i < |pauses| ==> pauses[i] >= 0.0) ==>
              ScriptRps(GenerateSamplingPhases(cfg, pauses)) == Ok(1.0)
  {
    var r := GenerateSamplingPhases(cfg, pauses);
    forall j | 0 <= j < |r|
      ensures (r[j].Pause? ==> PauseInRange(cfg, r[j].pause)) && (!r[j].Pause? ==> r[j] == SingleArrival)
      ensures 0.0 <= PhaseRps(r[j]) <= 1.0
    {
      var i := j / 2;
      assert j == 2 * i || j == 2 * i + 1;
    }
    if cfg.size > 0 {
      assert r[1] == SingleArrival;
      var q := ScriptRps(r);
      assert q.Ok?;
      if q.value != 0.0 {
        var k :| 0 <= k < |r| && PhaseRps(r[k]) == q.value;
      }
    }
  }

  /** The probe script for one scenario. */
  function FlowScript(s: Script, sc: Scenario, pause: real): Script {
    s.(mode := Some(Perf), phases := [Pause(pause), SingleArrival], scenarios := [sc])
  }

  /** `splitScriptByFlow`: one performance-mode probe script per scenario,
      in order, each with its own drawn pause. */
  function SplitScriptByFlow(s: Script, pauses: seq<real>): (r: seq<Script>)
    requires |pauses| == |s.scenarios|
    ensures |r| == |s.scenarios|
    ensures forall i :: 0 <= i < |r| ==>
              && r[i].scenarios == [s.scenarios[i]]
              && r[i].mode == Some(Perf)
              && r[i].phases == [Pause(pauses[i]), SingleArrival]
              && r[i] == s.(mode := r[i].mode, phases := r[i].phases, scenarios := r[i].scenarios)
  {
    seq(|s.scenarios|, i requires 0 <= i < |s.scenarios| => FlowScript(s, s.scenarios[i], pauses[i]))
  }

  /** All scenarios of the given scripts, in order. */
  function AllScenarios(ss: seq<Script>): seq<Scenario> {
    if ss == [] then [] else ss[0].scenarios + AllScenarios(ss[1..])
  }

  /** The probe scripts together carry exactly the scenarios of the
      original, each once and in the original order. */
  lemma {:induction false} SplitScriptByFlowReassembles(s: Script, pauses: seq<real>)
    requires |pauses| == |s.scenarios|
    ensures AllScenarios(SplitScriptByFlow(s, pauses)) == s.scenarios
    decreases |s.scenarios|
  {
    var r := SplitScriptByFlow(s, pauses);
    if s.scenarios != [] {
      var t := s.(scenarios := s.scenarios[1..]);
      SplitScriptByFlowReassembles(t, pauses[1..]);
      var rt := SplitScriptByFlow(t, pauses[1..]);
      assert |rt| == |r[1..]|;
      forall i | 0 <= i < |rt|
        ensures rt[i].scenarios == r[1..][i].scenarios
      {
      }
      AllScenariosDependsOnScenarios(rt, r[1..]);
      assert [s.scenarios[0]] + s.scenarios[1..] == s.scenarios;
    }
  }

  lemma {:induction false} AllScenariosDependsOnScenarios(a: seq<Script>, b: seq<Script>)
    requires |a| == |b| && forall i :: 0 <= i < |a| ==> a[i].scenarios == b[i].scenarios
    ensures AllScenarios(a) == AllScenarios(b)
    decreases |a|
  {
    if a != [] {
      AllScenariosDependsOnScenarios(a[1..], b[1..]);
    }
  }

  /** `planSamples`: stamp the start and the synchronous invocation type,
      then fan out by flow. */
  function PlanSamples(timeNow: int, s: Script, pauses: seq<real>): (r: seq<Script>)
    requires |pauses| == |s.scenarios|
    ensures |r| == |s.scenarios|
    ensures forall i :: 0 <= i < |r| ==>
              && r[i].start == Some(timeNow)
              && r[i].invokeType == Some(RequestResponse)
              && r[i].mode == Some(Perf)
              && r[i].scenarios == [s.scenarios[i]]
              && r[i].phases == [Pause(pauses[i]), SingleArrival]
    ensures forall i :: 0 <= i < |r| ==>
              r[i] == s.(start := Some(timeNow), invokeType := Some(RequestResponse),
                         mode := r[i].mode, scenarios := r[i].scenarios, phases := r[i].phases)
  {
    SplitScriptByFlow(s.(start := Some(timeNow), invokeType := Some(RequestResponse)), pauses)
  }

  /** The probes of one sampling round together carry exactly the script's
      scenarios, each once and in order. */
  lemma PlanSamplesReassembles(timeNow: int, s: Script, pauses: seq<real>)
    requires |pauses| == |s.scenarios|
    ensures AllScenarios(PlanSamples(timeNow, s, pauses)) == s.scenarios
  {
    SplitScriptByFlowReassembles(s.(start := Some(timeNow), invokeType := Some(RequestResponse)), pauses);
  }
}
