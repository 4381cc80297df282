# Load-test planning engine, modelled in Dafny

This project models the planning engine of a serverless load-testing tool
(`lib/lambda/planning.js`). A load-test **script** is an ordered list of
**phases**:
- a constant rate `{duration, arrivalRate}`;
- a linear ramp `{duration, arrivalRate, rampTo}`;
- a fixed count `{duration, arrivalCount}`;
- a `{pause}`.

A single worker can only run for so long and send so many requests per
second. The engine therefore cuts a script into pieces that respect a
maximum chunk duration and a maximum chunk rate. It then stamps the pieces
with start times and hands back one planning round at a time.

The engine's behaviour is known here only through its test suite,
`tests/lib/lambda/planning.spec.js`. Every definition below follows what
that suite asserts, and every row of the table cites the test lines it
stands for.

Files, one module each:

| file | module | what it holds |
|---|---|---|
| `wrappers.dfy` | `Wrappers` | `Option` and `Result` |
| `numbers.dfy` | `Numbers` | JavaScript `Math.round` as `Round`, `Ceil`, `Whole`, and small facts about fractions |
| `phases.dfy` | `Phases` | the `Phase` union; phase and script duration and peak rate; the `Query` result that replaces the negative-index sentinel |
| `scripts.dfy` | `Scripts` | `Script`, `Settings`, `SamplingConfig`; the "within limits" test |
| `duration_split.dfy` | `DurationSplitter` | `splitPhaseByDurationInSeconds`, `splitScriptByDurationInSeconds` |
| `intersection.dfy` | `IntersectionMath` | `intersection` |
| `rate_split.dfy` | `RateSplitter` | `splitPhaseByRequestsPerSecond`, `splitScriptByRequestsPerSecond` |
| `scheduler.dfy` | `Scheduler` | `splitScriptByDurationInSecondsAndSchedule`, `splitScriptByRequestsPerSecondAndSchedule` |
| `conservation.dfy` | `LoadConservation` | what the repeated rate split conserves: the summed rate of the parallel parts |
| `planner.dfy` | `Planner` | `planPerformance` |
| `sampling.dfy` | `SamplingPlanner` | `generateSamplingPhases`, `splitScriptByFlow`, `planSamples` |
| `examples.dfy` | `Examples` | concrete cases from the test suite, with the default settings (120 s, 25 rps, 15000 ms buffer) |

Modelling decisions:
- **Numbers.** Durations and rates are `real`: sampling pauses are
  fractional. `Round(x)` is `(x + 0.5).Floor`, which is JavaScript's
  `Math.round`. Settings are natural numbers.
- **Invalid phases.** A phase that is none of the four shapes is
  `Invalid`. Its duration and rate are -1.
- **Script queries.** A script-level query returns `Ok(value)` or
  `FirstInvalid(index)`. This replaces the engine's negated index, for
  which `-0` is ambiguous.
- **The limit checks treat an invalid script as within the limits.**
  This follows the engine's "query at most the limit" check, applied to the
  non-positive sentinel; the suite runs no invalid script through a round.
- **Sequential pieces.** A duration split runs its chunk first and the
  remainder afterwards.
- **Parallel pieces.** A rate split runs chunk and remainder side by side
  over the same seconds. A side with nothing to do is padded with a pause.
- **Termination of the repeated rate split.** Each pass lowers the
  rounded-up peak rate `PeakCeil` of what is left over by at least the
  whole ceiling. The repeated split stops on that measure, after about
  peak ÷ ceiling passes.

## Model

| member | source | states |
|---|---|---|
| Phases.PhaseRpsIsPeak | tests/lib/lambda/planning.spec.js:467-492 | A phase's peak rate (the larger ramp end, the constant rate, count over duration, 0 for a pause) is never below the rate it asks for at any instant, and it is reached at one of the phase's ends. |
| Phases.ScriptDuration | tests/lib/lambda/planning.spec.js:47-185 | A script's duration is the sum of its phase durations, where a phase lasts its `duration`, a pause its `pause`, and anything else -1 (`PhaseDuration`). If some phase is invalid, the result is the index of the first invalid phase: every phase before it is valid. |
| Phases.ScriptRps | tests/lib/lambda/planning.spec.js:494-565 | A script's rate bounds every phase rate and is reached by one of them (or is 0). If some phase is invalid, the result is the index of the first invalid phase. |
| Phases.AllAtMostIsWithinRate | tests/lib/lambda/planning.spec.js:541-565 | A script whose every phase is at or below a limit passes the rate check for that limit. |
| DurationSplitter.SplitPhaseByDuration | tests/lib/lambda/planning.spec.js:191-285 | Cutting at `t` gives a chunk of `t` seconds and a remainder with the rest. Both keep the phase's shape and a constant rate is copied. A count is shared out in whole arrivals within half an arrival of the exact share, and the two shares add up to the count. A ramp's cut rate is the whole rate within 0.5 of the interpolated rate, and the chunk ends where the remainder starts. |
| DurationSplitter.InterpolateBetween | tests/lib/lambda/planning.spec.js:210-251 | The exact rate at an inner cut lies between the ramp's two ends. |
| DurationSplitter.SplitPhaseKeepsWellFormed | tests/lib/lambda/planning.spec.js:191-285 | Cutting a well-formed phase gives two well-formed phases: non-negative rates and whole non-negative counts. |
| DurationSplitter.RampSplitKeepsSlope | tests/lib/lambda/planning.spec.js:210-230 | When the interpolated rate is already whole, both halves of a ramp keep the ramp's slope. |
| DurationSplitter.SplitPhasesByDurationConserves | tests/lib/lambda/planning.spec.js:290-446 | Chunk and remainder durations add up to the script's. The chunk takes exactly the limit, or the whole script when it is shorter. |
| DurationSplitter.SplitAtPhaseBoundary | tests/lib/lambda/planning.spec.js:291-394 | When phase boundaries add up exactly to the limit, no phase is cut. The chunk is the phases before the boundary and the remainder the phases after it. |
| DurationSplitter.SplitStraddlingPhase | tests/lib/lambda/planning.spec.js:395-446 | Only the phase straddling the limit is cut, at the time left in the chunk. Phase order is kept on both sides. |
| DurationSplitter.SplitPhasesByDurationKeepsWellFormed | tests/lib/lambda/planning.spec.js:290-446 | Both sides of a script split by duration stay well-formed. |
| DurationSplitter.SplitPhasesByDurationKeepsWhole | tests/lib/lambda/planning.spec.js:290-446 | Whole-second phases cut at a whole-second limit give whole-second phases. |
| DurationSplitter.SplitScriptByDuration | tests/lib/lambda/planning.spec.js:447-461 | Both halves keep every field of the script except the phases, and the remainder does not carry the start time. |
| IntersectionMath.Intersection | tests/lib/lambda/planning.spec.js:570-579 | Fails with the parallel-lines message exactly when the ramp's ends are equal. Otherwise it returns the point on the ramp at the target rate, and the point lies strictly inside the ramp when the target is strictly between the ends. |
| IntersectionMath.CrossingInside | tests/lib/lambda/planning.spec.js:641-708 | A rate strictly between a ramp's ends is met strictly inside the ramp's duration. |
| RateSplitter.Normalize | tests/lib/lambda/planning.spec.js:585-589 | A ramp with equal ends becomes a constant rate. Other phases are unchanged, and duration and peak rate are kept. |
| RateSplitter.NormalizeKeepsRate | tests/lib/lambda/planning.spec.js:585-589 | The normalized phase asks for the same rate as the original at every instant, and normalizing is idempotent. |
| RateSplitter.SplitPhaseByRate | tests/lib/lambda/planning.spec.js:584-810 | Chunk and remainder have the same number of phases, at most two, aligned second for second. Only an invalid phase gives empty sides. |
| RateSplitter.SplitPhaseByRateCoversDuration | tests/lib/lambda/planning.spec.js:584-810 | Both sides of a phase's rate split cover exactly the phase's duration. |
| RateSplitter.SplitPhaseByRateChunkAtMost | tests/lib/lambda/planning.spec.js:584-810 | Every chunk phase is at or below the ceiling. |
| RateSplitter.SplitPhaseByRateConservesRate | tests/lib/lambda/planning.spec.js:709-810 | Outside the crossing case, at every instant the chunk and the remainder together carry exactly the phase's rate. Above the ceiling the chunk carries exactly the ceiling. |
| RateSplitter.CrossingSplitShape | tests/lib/lambda/planning.spec.js:641-708 | A whole-second ramp crossing the ceiling meets it at a point strictly inside the ramp, and is cut at that point rounded, within half a second of it. Rising, with the cut before the end: the chunk ramps from the phase's start rate up to the ceiling and then holds it; the remainder pauses until the cut and then ramps the excess up to the end rate minus the ceiling. Falling, with the cut after the start: the chunk holds the ceiling and then ramps down to the phase's end rate; the remainder ramps the excess down from the start rate minus the ceiling and then pauses. When the cut lands on the far end, the excess is spread over the whole phase and still starts or ends at the original rate minus the ceiling. |
| RateSplitter.SplitPhaseByRateRemainderDrops | tests/lib/lambda/planning.spec.js:936-988 | Under a whole ceiling of at least 1, a phase at or below the ceiling leaves only pauses. Above it, every remainder phase has a non-negative rate whose rounded-up value is at least the ceiling below the phase's own. |
| RateSplitter.SplitPhaseByRateKeepsWellFormed | tests/lib/lambda/planning.spec.js:1268-1278 | A well-formed whole-second phase splits into well-formed whole-second pieces. |
| RateSplitter.SplitPhasesByRate | tests/lib/lambda/planning.spec.js:814-899 | A script's chunk and remainder have the same number of phases, aligned second for second. |
| RateSplitter.SplitPhasesByRateAppend | tests/lib/lambda/planning.spec.js:851-899 | Splitting a concatenation is the concatenation of the splits, so per-phase results stay in phase order. |
| RateSplitter.SplitPhasesByRateCoversDuration | tests/lib/lambda/planning.spec.js:814-899 | Chunk and remainder scripts each last as long as the original script. |
| RateSplitter.SplitPhasesByRateChunkAtMost | tests/lib/lambda/planning.spec.js:814-899 | The chunk script is within the rate ceiling. |
| RateSplitter.SplitPhasesByRateRemainderShrinks | tests/lib/lambda/planning.spec.js:936-988 | A remainder still above the ceiling has a rounded-up peak at least the ceiling below that of the script it came from, so the repeated split ends. |
| RateSplitter.SplitPhasesByRateKeepsWellFormed | tests/lib/lambda/planning.spec.js:1268-1278 | Well-formed whole-second scripts split into well-formed whole-second scripts. |
| RateSplitter.SplitScriptByRate | tests/lib/lambda/planning.spec.js:814-899 | Both scripts keep every field of the original except the phases. |
| Scheduler.ScheduleByDuration | tests/lib/lambda/planning.spec.js:901-934 | The chunk keeps an existing start, or starts at now plus the buffer. The remainder always starts a full chunk length (maximum seconds times 1000 ms) after the chunk. |
| Scheduler.ScheduleByDurationBackToBack | tests/lib/lambda/planning.spec.js:922-934 | For a script longer than a chunk, the chunk lasts exactly the maximum, the remainder has the rest, and the remainder starts the moment the chunk ends. |
| Scheduler.RateParts | tests/lib/lambda/planning.spec.js:936-988 | The repeated split yields at least two parts, all within the ceiling. There are at most the rounded-up peak rate divided by the ceiling, plus two. |
| Scheduler.RatePartsCoverDuration | tests/lib/lambda/planning.spec.js:936-988 | For a script without invalid phases, every parallel part lasts exactly as long as the script. |
| Scheduler.RatePartsSound | tests/lib/lambda/planning.spec.js:936-988 | Well-formed whole-second phases stay so in every parallel part. |
| Scheduler.ScheduleByRate | tests/lib/lambda/planning.spec.js:936-988 | Every part shares one start: the script's own, or now plus the buffer. Every part is within the ceiling and keeps the script's other fields, and lasts as long as the script when no phase is invalid. |
| Scheduler.ScheduleByRatePhases | tests/lib/lambda/planning.spec.js:936-988 | The scheduled scripts carry the parts of the repeated rate split, one each and in order. |
| LoadConservation.BandedDoesNotCross | tests/lib/lambda/planning.spec.js:591-640 | A ramp that stays between two consecutive multiples of the ceiling does not cross the ceiling, so its split is a plain subtraction. |
| LoadConservation.SplitPhaseByRateKeepsBanded | tests/lib/lambda/planning.spec.js:591-640 | The remainder of such a phase is one valid phase that again stays between two consecutive multiples of the ceiling. |
| LoadConservation.SplitPhasesByRateCarries | tests/lib/lambda/planning.spec.js:814-899 | For such a list, chunk and remainder have one phase per input phase, and at every instant the two carry exactly that phase's rate. |
| LoadConservation.RatePartsCarryLoad | tests/lib/lambda/planning.spec.js:936-988 | For such a list, every part of the repeated split has one phase per input phase, and at every instant the rates of the parts add up to the rate of the input phase: no load is lost or added. |
| LoadConservation.ScheduleByRateCarriesLoad | tests/lib/lambda/planning.spec.js:936-988 | For a script none of whose ramps straddles a multiple of the ceiling, the scripts scheduled by rate together carry exactly the load of the script they came from. |
| Planner.DropZeroLoad | tests/lib/lambda/planning.spec.js:1248-1278 | No zero-second load phase remains, and the list never grows. |
| Planner.DropZeroLoadMembers | tests/lib/lambda/planning.spec.js:1248-1278 | A phase is in the cleaned list exactly when it is in the input and is not a zero-second load phase. |
| Planner.DropZeroLoadAppend | tests/lib/lambda/planning.spec.js:1248-1278 | Cleaning a concatenation is concatenating the cleaned parts, so the phases kept stay in their order. |
| Planner.DropZeroLoadCons | tests/lib/lambda/planning.spec.js:1248-1278 | A single phase in front is dropped exactly when it is a zero-second load phase and kept once otherwise. |
| Planner.DropZeroLoadKeepsDuration | tests/lib/lambda/planning.spec.js:1268-1278 | The clean-up keeps the total duration. |
| Planner.DropZeroLoadIdentity | tests/lib/lambda/planning.spec.js:1248-1267 | A list without zero-second load phases is returned as it is, so the clean-up is idempotent. |
| Planner.DropZeroLoadKeepsLimits | tests/lib/lambda/planning.spec.js:1268-1278 | The clean-up keeps a well-formed list well-formed and within both limits. |
| Planner.PlanPerformance | tests/lib/lambda/planning.spec.js:1195-1278 | A script within both limits is returned alone and unchanged. Otherwise the round has at least two scripts, all with the genesis stamp and no zero-second load phase. When the script is too long, the continuation comes first, holds the duration remainder and starts a chunk length after the others, which share the chunk's start. |
| Planner.PlanPerformancePhases | tests/lib/lambda/planning.spec.js:1195-1278 | What each script runs. A too-long script whose chunk is within the rate ceiling gives exactly two scripts, the continuation and the cleaned chunk. A too-long script whose chunk is too fast gives the continuation, then the cleaned rate parts of the chunk. A short but too fast script gives the cleaned rate parts of its own phases. |
| Planner.DispatchPhases | tests/lib/lambda/planning.spec.js:1217-1247 | The same three cases before the clean-up: the chunk alone, the rate parts of the chunk, or the rate parts of the script. |
| Planner.DispatchShape | tests/lib/lambda/planning.spec.js:1217-1247 | Before the clean-up, every script of the round carries the genesis stamp and differs from the input only in phases and start. A too-long script's continuation comes first, holding the seconds past the chunk and starting one chunk length later, and every other script starts when the chunk does. |
| Planner.DispatchWithinLimits | tests/lib/lambda/planning.spec.js:1217-1247 | Before the clean-up, every script dispatched now, meaning all but a continuation, is within both limits. |
| Planner.PlanPerformanceWithinLimits | tests/lib/lambda/planning.spec.js:1195-1278 | For a well-formed whole-second script, every returned script is well-formed and every one but a continuation is within both limits. A continuation carries exactly the script's duration minus one chunk. |
| Planner.Rounds | tests/lib/lambda/planning.spec.js:1297-1384 | The number of rounds for a duration is the least count of chunk lengths that covers it. |
| Planner.ContinuationNeedsOneRoundLess | tests/lib/lambda/planning.spec.js:1297-1384 | Re-submitting a continuation needs exactly one round less than the script it came from. |
| SamplingPlanner.GenerateSamplingPhases | tests/lib/lambda/planning.spec.js:1169-1190 | Exactly `2 * size` phases: each drawn pause followed by a single one-request, one-second phase. |
| SamplingPlanner.SamplingPhasesShape | tests/lib/lambda/planning.spec.js:1169-1190 | Every pause is within the configured variance of the average pause, and every other phase sends exactly one request. A non-empty sample peaks at one request per second. |
| SamplingPlanner.SplitScriptByFlow | tests/lib/lambda/planning.spec.js:996-1119 | One performance-mode script per scenario, in order. Each carries only its scenario and the phases pause-then-one-request, and keeps every other field. |
| SamplingPlanner.SplitScriptByFlowReassembles | tests/lib/lambda/planning.spec.js:996-1119 | The probe scripts together carry exactly the original scenarios, each once and in order. |
| SamplingPlanner.PlanSamples | tests/lib/lambda/planning.spec.js:1280-1295 | Every probe script starts now and is invoked as `RequestResponse`. Apart from its mode, scenario and phases, it is the input script unchanged: target, sampling settings, genesis and trace are kept. |
| SamplingPlanner.PlanSamplesReassembles | tests/lib/lambda/planning.spec.js:1280-1295 | The probes of one sampling round together carry exactly the script's scenarios, each once and in order. |
| Examples.RampSplitRoundsHalfUp | tests/lib/lambda/planning.spec.js:210-251 | The ramp 1→4 over 360 s cut at 120 s gives 1→2 and 2→4. The ramp 1→2 over 240 s gives 1→2 and 2→2, because 1.5 rounds up. |
| Examples.FlatSplits | tests/lib/lambda/planning.spec.js:191-285 | Constant, count and pause phases cut at 120 s as the suite expects. |
| Examples.ParallelRampHasNoIntersection | tests/lib/lambda/planning.spec.js:574-579 | The ramp 2→2 has no crossing with rate 1. |
| Examples.RampAboveCeiling | tests/lib/lambda/planning.spec.js:591-616 | The ramp 50→75 at ceiling 25 gives the chunk constant 25 and the remainder 25→50. |
| Examples.RampBelowCeiling | tests/lib/lambda/planning.spec.js:585-640 | A ramp below the ceiling is kept whole with a pause beside it; a ramp with equal ends becomes a constant first. |
| Examples.CrossingRamps | tests/lib/lambda/planning.spec.js:641-708 | The rising and falling crossing ramps of the suite split into the expected pairs of phases. |
| Examples.EarlyCrossingKeepsDuration | tests/lib/lambda/planning.spec.js:641-708 | The mirror of the `0→26` case: the one-second ramp 26→0 at ceiling 25 splits into the chunk 25→1 and the remainder constant 1. |
| Examples.LateCrossingKeepsDuration | tests/lib/lambda/planning.spec.js:1248-1267 | The one-second ramp 0→26 at ceiling 25 splits into the chunk 1→25 and the remainder constant 1. |
| Examples.LateCrossingNeedsRateSplit | tests/lib/lambda/planning.spec.js:1248-1267 | The `0→26` script is within the duration limit but above the rate ceiling. |
| Examples.LateCrossingParts | tests/lib/lambda/planning.spec.js:1248-1267 | Its repeated rate split gives exactly the two parts `[1→25]` and `[constant 1]`. |
| Examples.LateCrossingPlansTwoScripts | tests/lib/lambda/planning.spec.js:1248-1267 | The one-second ramp 0→26 at ceiling 25 is planned as exactly two scripts, `[1→25]` and `[constant 1]`. |
| Examples.RampDownContinuations | tests/lib/lambda/planning.spec.js:1297-1384 | The continuations of the 900-second ramp-down run 173→1, 147→1, 120→1, 94→1, 67→1, 41→1 and 14→1. |
| Examples.RampDownTakesEightRounds | tests/lib/lambda/planning.spec.js:1297-1384 | A 900-second script in 120-second chunks takes eight rounds. |

## Left out

- Loading the settings and the sampling configuration: `platform-settings.js` and `sampling.js` are not part of this model. `Settings` and `SamplingConfig` are parameters.
- Random pause jitter: the drawn pauses are a parameter. The uniqueness of pauses across flows is probabilistic and has no counterpart.
- In-place mutation of the caller's objects: deleting a redundant `rampTo` and stamping `_start` or `_invokeType` on the input. The model returns fresh values instead.
- Phases with only some of their fields, such as `{duration: 10}` or `{arrivalRate: 1}`. Each `Phase` constructor is complete, and anything else is `Invalid`.
- Scenario flows, `target` and `_trace` are carried through unread.
- Floating point: arithmetic is exact over `real`, and only the explicit `Round` models `Math.round`.
- Phases.PhaseRpsIsPeak: a count over zero seconds is reported as invalid (-1). JavaScript would divide by zero and get `Infinity` or `NaN`.
- RateSplitter.SplitPhaseByRate: the count chunk is `ceiling × duration` arrivals, unrounded, because the suite only pins whole cases.
- RateSplitter.SplitCrossingRamp: the spreading of a rising ramp whose crossing rounds to its end is inferred from the suite's `0→26` case. The chunk's low end is raised to 1 there. The falling ramp whose crossing rounds to its start is spread the same way, mirrored; the suite pins no such case.
- RateSplitter.CrossingSplitShape: a falling ramp whose cut rounds to its very end leaves a zero-second ramp piece in the chunk. The lemma then states the pieces but not the rate at the end of that piece.
- RateSplitter.SplitPhaseByRateConservesRate: stated only outside the crossing case. A crossing ramp is cut at a rounded second and the excess ramp is floored at 1, so the two sides do not add up to the original exactly.
- LoadConservation.ScheduleByRateCarriesLoad: holds only for scripts whose ramps stay between consecutive multiples of the ceiling, for the reason on the next line; the suite's `0→26` ramp and the 200→173 ramp-down chunk both cross the ceiling, and the parts of `0→26` ask for 2 arrivals per second at its start where the ramp asks for 0.
- Scheduler.RateParts: load conservation (`LoadConservation.RatePartsCarryLoad`) is proved only for lists in which no ramp straddles a multiple of the ceiling. A crossing ramp is cut at a rounded second and its excess is floored at 1, so its parts do not add up to it exactly.
- Scheduler.RateParts: requires a whole ceiling of at least 1 (`ValidSettings`). With a ceiling of 0 the engine's repeated split would never end.
- Planner.PlanPerformance: requires `ValidSettings` for the same reason.
- Planner.PlanPerformance: the terminal case returns the script untouched. It gets no genesis stamp and no zero-second clean-up.
- Planner.PlanPerformance: the genesis is propagated, never incremented: the end-to-end run keeps `_genesis: 0` across rounds.
- Planner.PlanPerformance: zero-second phases are dropped, never coalesced into a neighbour.
- Planner.PlanPerformanceWithinLimits: holds for well-formed scripts of whole-second phases. With fractional durations, a crossing cut rounded past a falling ramp's end could give a negative duration.
- The 8-round end-to-end run is covered by its duration side (`Rounds`, the continuations). Its rate-split parts are not computed round by round.
