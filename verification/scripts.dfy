/** Scripts and the settings the engine consumes. Scenario flows and the
    target are carried through unchanged and never inspected. */
module Scripts {
  import opened Wrappers
  import opened Phases

  /** One HTTP flow; opaque to the planner beyond being copied. */
  datatype Scenario = Scenario(flow: seq<string>)

  datatype Mode = Perf | Acc

  datatype SamplingConfig = SamplingConfig(
    size: nat,
    errorBudget: real,
    averagePause: real,
    pauseVariance: real,
    warningThreshold: real)

  /** A load-test script. `start`, `genesis` and `invokeType` are the
      scheduling metadata (`_start`, `_genesis`, `_invokeType`); `trace` is
      the `_trace` flag, passed through. */
  datatype Script = Script(
    target: string,
    phases: seq<Phase>,
    scenarios: seq<Scenario>,
    sampling: Option<SamplingConfig>,
    mode: Option<Mode>,
    start: Option<int>,
    genesis: Option<int>,
    trace: bool,
    invokeType: Option<string>)

  /** Platform limits: seconds per chunk, arrivals per second per chunk, and
      the delay in milliseconds before a freshly planned chunk starts. */
  datatype Settings = Settings(
    maxChunkDurationInSeconds: nat,
    maxChunkRequestsPerSecond: nat,
    timeBufferInMilliseconds: nat)

  /** Limits the settings loader guarantees: both at least one. */
  predicate ValidSettings(st: Settings) {
    st.maxChunkDurationInSeconds >= 1 && st.maxChunkRequestsPerSecond >= 1
  }

  /** A script needs no splitting when both queries are within the limits. */
  predicate WithinLimits(s: Script, st: Settings) {
    && WithinDuration(s.phases, st.maxChunkDurationInSeconds as real)
    && WithinRate(s.phases, st.maxChunkRequestsPerSecond as real)
  }
}
