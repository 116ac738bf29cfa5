/**
 * The stage runner: runs stages against two shared maps, the result and
 * the status of each stage, and walks the dependency layers with
 * fail-fast skipping. The runner is a state transformer: each operation
 * takes the maps and returns them updated, next to what the call returns.
 * Processes are an oracle; a concurrent layer is modelled as its stages
 * run in turn, since each task writes only its own key.
 */
module StageRunners {
  import opened Common
  import opened Stages
  import opened DependencyGraph
  import opened Builders
  import opened StageContexts
  import opened Executor

  /** The two maps a runner shares with its tasks. */
  datatype Runner = Runner(results: map<Stage, StageResult>, statuses: map<Stage, StageStatus>)

  /** What the processes do: the executable's outcome for Exec, the
      outcome of the `i`-th step of each stage, and the wall-clock time a
      stage takes. */
  datatype Oracle = Oracle(program: Outcome, step: (Stage, nat) -> Outcome, elapsed: Stage -> real)

  const EXEC_NEEDS_INFO: string := "Exec stage requires executable info"
  const EXEC_FAILED: string := "Execution failed"
  const NO_STEPS: string := "No steps to execute"
  const STAGE_FAILED: string := "Stage execution failed"
  const PREVIOUS_FAILED: string := "Previous stage failed"
  const SORT_FAILED: string := "Failed to resolve stage dependencies"

  /** `StageRunner::new`. */
  function NewRunner(): (r: Runner)
    ensures forall s :: s !in r.results && s !in r.statuses
  {
    Runner(map[], map[])
  }

  /** `clear`: both maps emptied. */
  function Clear(runner: Runner): (r: Runner)
    ensures forall s :: GetStatus(r, s) == None && GetResult(r, s) == None
  {
    Runner(map[], map[])
  }

  /** `get_status`. */
  function GetStatus(runner: Runner, s: Stage): (r: Option<StageStatus>)
    ensures r.Some? <==> s in runner.statuses
    ensures r.Some? ==> r.value == runner.statuses[s]
  {
    if s in runner.statuses then Some(runner.statuses[s]) else None
  }

  /** `get_result`. */
  function GetResult(runner: Runner, s: Stage): (r: Option<StageResult>)
    ensures r.Some? <==> s in runner.results
    ensures r.Some? ==> r.value == runner.results[s]
  {
    if s in runner.results then Some(runner.results[s]) else None
  }

  /** The status recorded beside a result. */
  function StatusOf(res: StageResult): (st: StageStatus)
    ensures st == StageStatus.Completed <==> res.Success?
    ensures st == FailedStatus <==> res.Failed?
    ensures st == SkippedStatus <==> res.Skipped?
  {
    match res
    case Success(_, _) => StageStatus.Completed
    case Failed(_, _, _) => FailedStatus
    case Skipped(_) => SkippedStatus
  }

  function ReasonOr(reason: Option<string>, fallback: string): string
  {
    if reason.Some? then reason.value else fallback
  }

  // ---------------------------------------------------------------------
  // execute_stage
  // ---------------------------------------------------------------------

  /** The index of the first failed result, or the length when all
      succeeded. */
  function FirstFailed(results: seq<ExecutionResult>): (k: nat)
    ensures k <= |results|
    ensures forall j :: 0 <= j < k ==> results[j].success
    ensures k < |results| ==> !results[k].success
  {
    if |results| == 0 then 0
    else if !results[0].success then 0
    else
      var k := FirstFailed(results[1..]);
      assert forall j :: 1 <= j < k + 1 ==> results[j] == results[1..][j - 1];
      1 + k
  }

  /** `error` is the reason of the first failed result, or the stage's
      fallback when that result has none. */
  predicate FailedWith(results: seq<ExecutionResult>, error: string)
  {
    exists k :: 0 <= k < |results| && FirstFailure(results, k) && error == ReasonOr(results[k].failureReason, STAGE_FAILED)
  }

  predicate FirstFailure(results: seq<ExecutionResult>, k: int)
  {
    0 <= k < |results| && !results[k].success && forall j :: 0 <= j < k ==> results[j].success
  }

  /** A stage's outcome from its steps' results: Success exactly when
      every step succeeded, else Failed with the first failure's reason;
      either way counting the results. */
  function Summarise(results: seq<ExecutionResult>, duration: real): (r: StageResult)
    ensures !r.Skipped? && r.stepsExecuted == |results|
    ensures r.Success? <==> forall i :: 0 <= i < |results| ==> results[i].success
    ensures r.Failed? ==> FailedWith(results, r.error)
  {
    var k := FirstFailed(results);
    if k == |results| then Success(duration, |results|)
    else
      var error := ReasonOr(results[k].failureReason, STAGE_FAILED);
      assert FirstFailure(results, k);
      Failed(error, duration, |results|)
  }

  /** What running an Exec stage yields, without touching the maps. */
  function ExecOutcome(ctx: StageContext, oracle: Oracle): (r: Result<StageResult, string>)
  {
    match ctx.executableInfo
    case None => Ok(Failed(EXEC_NEEDS_INFO, 0.0, 0))
    case Some(info) =>
      var run := ExecuteProgram(info, oracle.program).0;
      if run.Err? then Err(run.error)
      else if run.value.success then Ok(Success(run.value.duration, 1))
      else Ok(Failed(ReasonOr(run.value.failureReason, EXEC_FAILED), run.value.duration, 1))
  }

  /** Every step the generators emit has a program to spawn. */
  lemma GeneratedStepsSpawnable(ctx: StageContext, stage: Stage)
    ensures AllSpawnable(GenerateStepsForStage(ctx, stage))
  {
    var steps := GenerateStepsForStage(ctx, stage);
    var b := ctx.builder;
    forall i | 0 <= i < |steps| ensures |steps[i].commands| > 0 {
      match stage
      case Configure =>
        var plan := StagePlan(ConfigureKind, b.targets, |b.targets|);
        assert steps[i] == RenderStep(b, plan[i]);
      case Build =>
        var plan := StagePlan(BuildKind, b.targets, |b.targets|);
        assert steps[i] == RenderStep(b, plan[i]);
      case Install =>
        var plan := StagePlan(InstallKind, b.targets, |b.targets|);
        assert steps[i] == RenderStep(b, plan[i]);
      case Clean =>
      case _ =>
    }
  }

  /** The outcomes of a stage's first `n` steps. */
  function StepOutcomes(oracle: Oracle, stage: Stage, n: nat): (os: seq<Outcome>)
    ensures |os| == n
  {
    seq(n, i requires 0 <= i < n => oracle.step(stage, i))
  }

  /** What running a stage other than Exec yields, without touching the
      maps: Skipped when it has no steps, else its steps' summary. */
  function StepsOutcome(ctx: StageContext, stage: Stage, oracle: Oracle): (r: Result<StageResult, string>)
  {
    var steps := GenerateStepsForStage(ctx, stage);
    if |steps| == 0 then Ok(Skipped(NO_STEPS))
    else
      GeneratedStepsSpawnable(ctx, stage);
      var outcomes := StepOutcomes(oracle, stage, |steps|);
      var run := RunSteps(steps, outcomes).0;
      if run.Err? then Err(run.error)
      else Ok(Summarise(run.value, oracle.elapsed(stage)))
  }

  /** `execute_stage`. The stage is first marked Running; when the call
      returns a result, that result is stored and the status set to match
      it; when it fails, the status stays Running. No other stage's entry
      changes. */
  function ExecuteStage(runner: Runner, stage: Stage, ctx: StageContext, oracle: Oracle): (r: (Result<StageResult, string>, Runner))
    ensures r.0.Ok? ==> r.1 == Runner(runner.results[stage := r.0.value], runner.statuses[stage := StatusOf(r.0.value)])
    ensures r.0.Err? ==> r.1 == Runner(runner.results, runner.statuses[stage := Running])
    ensures stage == Exec ==> r.0 == ExecOutcome(ctx, oracle)
    ensures stage != Exec ==> r.0 == StepsOutcome(ctx, stage, oracle)
  {
    var running := runner.statuses[stage := Running];
    var outcome := if stage == Exec then ExecOutcome(ctx, oracle) else StepsOutcome(ctx, stage, oracle);
    match outcome
    case Err(e) => (Err(e), Runner(runner.results, running))
    case Ok(res) => (Ok(res), Runner(runner.results[stage := res], running[stage := StatusOf(res)]))
  }

  /** Exec never looks at the step generator: without an executable it
      fails with "Exec stage requires executable info", zero duration and
      no step, spawning nothing; with one it counts one step, falls back to
      "Execution failed" for a reason, and fails only as the program does.
      The builder and the step outcomes play no part. */
  lemma ExecStage(runner: Runner, ctx: StageContext, oracle: Oracle, b: Builder, step: (Stage, nat) -> Outcome)
    ensures ctx.executableInfo.None? ==> ExecuteStage(runner, Exec, ctx, oracle).0 == Ok(Failed(EXEC_NEEDS_INFO, 0.0, 0))
    ensures ctx.executableInfo.Some? ==> var r := ExecuteStage(runner, Exec, ctx, oracle).0;
      var run := ExecuteProgram(ctx.executableInfo.value, oracle.program).0;
      && (r.Err? <==> oracle.program.Faulted?)
      && (r.Ok? ==> !r.value.Skipped? && r.value.stepsExecuted == 1 && r.value.duration == run.value.duration)
      && (r.Ok? ==> (r.value.Success? <==> StatusSuccess(oracle.program.status)))
      && (r.Ok? && r.value.Failed? ==> r.value.error == ReasonOr(run.value.failureReason, EXEC_FAILED))
    ensures ExecuteStage(runner, Exec, ctx.(builder := b), oracle.(step := step)) == ExecuteStage(runner, Exec, ctx, oracle)
  {
  }

  /** A stage other than Exec with no steps is Skipped with "No steps to
      execute", never a success; with steps it counts its step results and
      succeeds exactly when they all did. */
  lemma StepStage(runner: Runner, ctx: StageContext, stage: Stage, oracle: Oracle)
    requires stage != Exec
    ensures var steps := GenerateStepsForStage(ctx, stage);
      |steps| == 0 ==> ExecuteStage(runner, stage, ctx, oracle).0 == Ok(Skipped(NO_STEPS))
    ensures var steps := GenerateStepsForStage(ctx, stage);
      var r := ExecuteStage(runner, stage, ctx, oracle).0;
      |steps| > 0 && r.Ok? ==>
        && AllSpawnable(steps)
        && var results := RunSteps(steps, StepOutcomes(oracle, stage, |steps|)).0.value;
        && r.value.stepsExecuted == |results|
        && (r.value.Success? <==> forall i :: 0 <= i < |results| ==> results[i].success)
        && (r.value.Failed? ==> FailedWith(results, r.value.error))
  {
    GeneratedStepsSpawnable(ctx, stage);
  }

  /** PreValidation, PostBuild and Test have no steps, so the runner
      always skips them. */
  lemma StepFreeStagesSkipped(runner: Runner, ctx: StageContext, oracle: Oracle, stage: Stage)
    requires stage in {PreValidation, PostBuild, Test}
    ensures ExecuteStage(runner, stage, ctx, oracle).0 == Ok(Skipped(NO_STEPS))
    ensures GetStatus(ExecuteStage(runner, stage, ctx, oracle).1, stage) == Some(SkippedStatus)
  {
  }

  // ---------------------------------------------------------------------
  // execute_with_dependencies
  // ---------------------------------------------------------------------

  /** Every stage reported in `all` has that result in the runner's map
      and the matching status. */
  predicate Recorded(all: map<Stage, StageResult>, runner: Runner)
  {
    forall s :: s in all ==>
      && s in runner.results && runner.results[s] == all[s]
      && s in runner.statuses && runner.statuses[s] == StatusOf(all[s])
  }

  /** Storing one result in both places keeps them in step. */
  lemma RecordOne(all: map<Stage, StageResult>, runner: Runner, s: Stage, v: StageResult)
    requires Recorded(all, runner)
    ensures Recorded(all[s := v], Runner(runner.results[s := v], runner.statuses[s := StatusOf(v)]))
  {
  }

  /** Some result in the map is a failure. */
  predicate AnyFailed(results: map<Stage, StageResult>)
  {
    exists s :: s in results && results[s].Failed?
  }

  /** A layer is handed to the concurrent path when it has more than one
      stage and every one may run concurrently. */
  predicate RunsConcurrently(layer: seq<Stage>)
  {
    |layer| > 1 && forall i :: 0 <= i < |layer| ==> CanRunConcurrent(layer[i])
  }

  /** The skip that fail-fast records for each stage of a layer. */
  function PreviousSkip(): StageResult
  {
    Skipped(PREVIOUS_FAILED)
  }

  /** Each stage of `ss` skipped because of an earlier failure. */
  function SkipMap(ss: set<Stage>): (m: map<Stage, StageResult>)
    ensures m.Keys == ss
    ensures forall s :: s in m ==> m[s] == PreviousSkip()
  {
    map s | s in ss :: PreviousSkip()
  }

  /** Their statuses. */
  function SkipStatuses(ss: set<Stage>): (m: map<Stage, StageStatus>)
    ensures m.Keys == ss
    ensures forall s :: s in m ==> m[s] == SkippedStatus
  {
    map s | s in ss :: SkippedStatus
  }

  /** Fail-fast: every stage of the layer recorded Skipped, in the
      runner's maps and in the call's results; nothing runs. */
  function SkipLayer(runner: Runner, all: map<Stage, StageResult>, layer: seq<Stage>): (r: (Runner, map<Stage, StageResult>))
    ensures r.0 == Runner(runner.results + SkipMap(Elems(layer)), runner.statuses + SkipStatuses(Elems(layer)))
    ensures r.1 == all + SkipMap(Elems(layer))
    decreases |layer|
  {
    if |layer| == 0 then (runner, all)
    else
      var s := layer[0];
      var runner' := Runner(runner.results[s := PreviousSkip()], runner.statuses[s := SkippedStatus]);
      assert Elems(layer) == {s} + Elems(layer[1..]) by {
        assert layer == [s] + layer[1..];
        ElemsAppend([s], layer[1..]);
      }
      SkipOne(all, s, Elems(layer[1..]));
      SkipOne(runner.results, s, Elems(layer[1..]));
      SkipOneStatus(runner.statuses, s, Elems(layer[1..]));
      SkipLayer(runner', all[s := PreviousSkip()], layer[1..])
  }

  lemma SkipOne(m: map<Stage, StageResult>, s: Stage, rest: set<Stage>)
    ensures m[s := PreviousSkip()] + SkipMap(rest) == m + SkipMap({s} + rest)
  {
    var a := m[s := PreviousSkip()] + SkipMap(rest);
    var b := m + SkipMap({s} + rest);
    assert a.Keys == b.Keys;
    forall t | t in a.Keys ensures a[t] == b[t] {
    }
  }

  lemma SkipOneStatus(m: map<Stage, StageStatus>, s: Stage, rest: set<Stage>)
    ensures m[s := SkippedStatus] + SkipStatuses(rest) == m + SkipStatuses({s} + rest)
  {
    var a := m[s := SkippedStatus] + SkipStatuses(rest);
    var b := m + SkipStatuses({s} + rest);
    assert a.Keys == b.Keys;
    forall t | t in a.Keys ensures a[t] == b[t] {
    }
  }

  /** Skipping keeps the reported results and the runner's in step. */
  lemma SkipRecorded(all: map<Stage, StageResult>, runner: Runner, ss: set<Stage>)
    requires Recorded(all, runner)
    ensures Recorded(all + SkipMap(ss), Runner(runner.results + SkipMap(ss), runner.statuses + SkipStatuses(ss)))
  {
  }

  /** The stages of a layer run in order; the first Failed result ends
      the layer, and an error ends the whole call. */
  function RunSequential(runner: Runner, all: map<Stage, StageResult>, layer: seq<Stage>, ctx: StageContext, oracle: Oracle): (r: (Result<map<Stage, StageResult>, string>, Runner))
    decreases |layer|
  {
    if |layer| == 0 then (Ok(all), runner)
    else
      var s := layer[0];
      var (res, runner1) := ExecuteStage(runner, s, ctx, oracle);
      if res.Err? then (Err(res.error), runner1)
      else if res.value.Failed? then (Ok(all[s := res.value]), runner1)
      else RunSequential(runner1, all[s := res.value], layer[1..], ctx, oracle)
  }

  /** The call's results after a sequential layer hold exactly the first
      `n` stages of the layer besides what they held before, and keep
      what they held for every other stage. Among those `n` stages only the
      last run may have failed, and when `n` falls short of the layer it
      did fail: the layer stops at its first failure and the stages after
      it get no entry at all. */
  predicate StoppedAfter(all: map<Stage, StageResult>, layer: seq<Stage>, n: int, out: map<Stage, StageResult>)
  {
    && 0 <= n <= |layer|
    && out.Keys == all.Keys + Elems(layer[..n])
    && (forall k :: k in all && k !in Elems(layer[..n]) ==> out[k] == all[k])
    && (forall i :: 0 <= i < n && out[layer[i]].Failed? ==> layer[i] == layer[n - 1])
    && (n < |layer| ==> 0 < n && out[layer[n - 1]].Failed?)
  }

  /** A sequential layer stops at its first failure, and the results it
      reports are the ones the runner recorded. */
  lemma {:induction false} SequentialStops(runner: Runner, all: map<Stage, StageResult>, layer: seq<Stage>, ctx: StageContext, oracle: Oracle)
    ensures var r := RunSequential(runner, all, layer, ctx, oracle);
      r.0.Ok? ==> exists n :: StoppedAfter(all, layer, n, r.0.value)
    ensures var r := RunSequential(runner, all, layer, ctx, oracle);
      r.0.Ok? && Recorded(all, runner) ==> Recorded(r.0.value, r.1)
    decreases |layer|
  {
    var r := RunSequential(runner, all, layer, ctx, oracle);
    if |layer| == 0 {
      assert StoppedAfter(all, layer, 0, all);
    } else {
      var s := layer[0];
      var (res, runner1) := ExecuteStage(runner, s, ctx, oracle);
      if res.Ok? {
        var all1 := all[s := res.value];
        if Recorded(all, runner) {
          RecordOne(all, runner, s, res.value);
        }
        if res.value.Failed? {
          assert layer[..1] == [s];
          assert StoppedAfter(all, layer, 1, all1);
        } else {
          SequentialStops(runner1, all1, layer[1..], ctx, oracle);
          if r.0.Ok? {
            var n :| StoppedAfter(all1, layer[1..], n, r.0.value);
            SequentialStep(all, layer, res.value, n, r.0.value);
          }
        }
      }
    }
  }

  lemma SequentialStep(all: map<Stage, StageResult>, layer: seq<Stage>, v: StageResult, n: nat, out: map<Stage, StageResult>)
    requires |layer| > 0 && !v.Failed?
    requires StoppedAfter(all[layer[0] := v], layer[1..], n, out)
    ensures StoppedAfter(all, layer, n + 1, out)
  {
    assert layer[..n + 1] == [layer[0]] + layer[1..][..n];
    ElemsAppend([layer[0]], layer[1..][..n]);
    if n + 1 < |layer| {
      assert layer[1..][n - 1] == layer[n];
    }
    forall i | 0 <= i < n + 1 && out[layer[i]].Failed?
      ensures layer[i] == layer[n]
    {
      if i > 0 {
        assert layer[1..][i - 1] == layer[i];
      } else if layer[0] in Elems(layer[1..][..n]) {
        var j :| 0 <= j < n && layer[1..][..n][j] == layer[0];
        assert layer[1..][j] == layer[0];
      }
    }
  }

  /** In a layer without repeated stages, which is what the sort yields,
      the sequential run reports every stage before the last one it ran
      as not Failed, and stops early only after a Failed one. */
  lemma SequentialFirstFailure(runner: Runner, all: map<Stage, StageResult>, layer: seq<Stage>, ctx: StageContext, oracle: Oracle)
    requires NoDups(layer)
    ensures var r := RunSequential(runner, all, layer, ctx, oracle);
      r.0.Ok? ==> exists n :: (
        && 0 <= n <= |layer|
        && r.0.value.Keys == all.Keys + Elems(layer[..n])
        && (forall i :: 0 <= i < n - 1 ==> !r.0.value[layer[i]].Failed?)
        && (n < |layer| ==> 0 < n && r.0.value[layer[n - 1]].Failed?))
  {
    SequentialStops(runner, all, layer, ctx, oracle);
    var r := RunSequential(runner, all, layer, ctx, oracle);
    if r.0.Ok? {
      var n :| StoppedAfter(all, layer, n, r.0.value);
      forall i | 0 <= i < n - 1
        ensures !r.0.value[layer[i]].Failed?
      {
        assert layer[i] != layer[n - 1];
      }
    }
  }

  /** The concurrent path: every task is spawned before any is awaited, so
      every stage of the layer runs; the tasks are then awaited in order
      and the first error ends the call. `acc` is what has been collected
      so far, or the first error. */
  function RunTasks(runner: Runner, acc: Result<map<Stage, StageResult>, string>, layer: seq<Stage>, ctx: StageContext, oracle: Oracle): (r: (Result<map<Stage, StageResult>, string>, Runner))
    decreases |layer|
  {
    if |layer| == 0 then (acc, runner)
    else
      var s := layer[0];
      var (res, runner1) := ExecuteStage(runner, s, ctx, oracle);
      var acc1 := if acc.Err? then acc else if res.Err? then Err(res.error) else Ok(acc.value[s := res.value]);
      RunTasks(runner1, acc1, layer[1..], ctx, oracle)
  }

  /** A concurrent layer reports every one of its stages, each as the
      runner recorded it, unless a task failed; the error reported is the
      first in layer order. */
  lemma {:induction false} TasksCollected(runner: Runner, acc: Result<map<Stage, StageResult>, string>, layer: seq<Stage>, ctx: StageContext, oracle: Oracle)
    ensures var r := RunTasks(runner, acc, layer, ctx, oracle);
      r.0.Ok? ==> acc.Ok? && r.0.value.Keys == acc.value.Keys + Elems(layer)
    ensures var r := RunTasks(runner, acc, layer, ctx, oracle);
      r.0.Ok? && Recorded(acc.value, runner) ==> Recorded(r.0.value, r.1)
    ensures acc.Err? ==> RunTasks(runner, acc, layer, ctx, oracle).0 == acc
    decreases |layer|
  {
    if |layer| > 0 {
      var s := layer[0];
      var (res, runner1) := ExecuteStage(runner, s, ctx, oracle);
      var acc1 := if acc.Err? then acc else if res.Err? then Err(res.error) else Ok(acc.value[s := res.value]);
      TasksCollected(runner1, acc1, layer[1..], ctx, oracle);
      assert layer == [s] + layer[1..];
      ElemsAppend([s], layer[1..]);
      if acc.Ok? && res.Ok? && Recorded(acc.value, runner) {
        RecordOne(acc.value, runner, s, res.value);
      }
    }
  }

  /** One layer, given that no failure is on record: concurrently or in
      order. */
  function RunLayer(runner: Runner, all: map<Stage, StageResult>, layer: seq<Stage>, ctx: StageContext, oracle: Oracle): (r: (Result<map<Stage, StageResult>, string>, Runner))
  {
    if RunsConcurrently(layer) then RunTasks(runner, Ok(all), layer, ctx, oracle)
    else RunSequential(runner, all, layer, ctx, oracle)
  }

  /** The walk over the layers. Before each layer the runner's map is
      consulted: if it holds any failure (from this call or an earlier one
      not cleared), the layer is skipped; otherwise it runs. */
  function RunLayers(runner: Runner, all: map<Stage, StageResult>, layers: seq<seq<Stage>>, ctx: StageContext, oracle: Oracle): (r: (Result<map<Stage, StageResult>, string>, Runner))
    decreases |layers|
  {
    if |layers| == 0 then (Ok(all), runner)
    else if AnyFailed(runner.results) then
      var (runner1, all1) := SkipLayer(runner, all, layers[0]);
      RunLayers(runner1, all1, layers[1..], ctx, oracle)
    else
      var (res, runner1) := RunLayer(runner, all, layers[0], ctx, oracle);
      if res.Err? then (Err(res.error), runner1)
      else RunLayers(runner1, res.value, layers[1..], ctx, oracle)
  }

  /** A layer run reports its stages as the runner recorded them, adds
      only stages of the layer, and leaves no stage of it out unless a
      sequential layer stopped at a failure. */
  lemma LayerRecorded(runner: Runner, all: map<Stage, StageResult>, layer: seq<Stage>, ctx: StageContext, oracle: Oracle)
    ensures var r := RunLayer(runner, all, layer, ctx, oracle);
      r.0.Ok? ==> all.Keys <= r.0.value.Keys <= all.Keys + Elems(layer)
    ensures var r := RunLayer(runner, all, layer, ctx, oracle);
      r.0.Ok? && Recorded(all, runner) ==> Recorded(r.0.value, r.1)
    ensures var r := RunLayer(runner, all, layer, ctx, oracle);
      r.0.Ok? && RunsConcurrently(layer) ==> r.0.value.Keys == all.Keys + Elems(layer)
    ensures var r := RunLayer(runner, all, layer, ctx, oracle);
      r.0.Ok? && !RunsConcurrently(layer) ==> exists n :: StoppedAfter(all, layer, n, r.0.value)
  {
    if RunsConcurrently(layer) {
      TasksCollected(runner, Ok(all), layer, ctx, oracle);
    } else {
      SequentialStops(runner, all, layer, ctx, oracle);
      var r := RunSequential(runner, all, layer, ctx, oracle);
      if r.0.Ok? {
        var n :| StoppedAfter(all, layer, n, r.0.value);
        PrefixElems(layer, n);
      }
    }
  }

  lemma PrefixElems(s: seq<Stage>, n: nat)
    requires n <= |s|
    ensures Elems(s[..n]) <= Elems(s)
  {
    assert s == s[..n] + s[n..];
    ElemsAppend(s[..n], s[n..]);
  }

  /** The layers' results: every stage reported is one of the layers',
      and is reported as the runner recorded it. */
  lemma {:induction false} LayersRecorded(runner: Runner, all: map<Stage, StageResult>, layers: seq<seq<Stage>>, ctx: StageContext, oracle: Oracle)
    ensures var r := RunLayers(runner, all, layers, ctx, oracle);
      r.0.Ok? ==> all.Keys <= r.0.value.Keys <= all.Keys + Elems(Flatten(layers))
    ensures var r := RunLayers(runner, all, layers, ctx, oracle);
      r.0.Ok? && Recorded(all, runner) ==> Recorded(r.0.value, r.1)
    decreases |layers|
  {
    if |layers| > 0 {
      assert Flatten(layers) == layers[0] + Flatten(layers[1..]);
      ElemsAppend(layers[0], Flatten(layers[1..]));
      if AnyFailed(runner.results) {
        var (runner1, all1) := SkipLayer(runner, all, layers[0]);
        if Recorded(all, runner) {
          SkipRecorded(all, runner, Elems(layers[0]));
        }
        LayersRecorded(runner1, all1, layers[1..], ctx, oracle);
      } else {
        var (res, runner1) := RunLayer(runner, all, layers[0], ctx, oracle);
        LayerRecorded(runner, all, layers[0], ctx, oracle);
        if res.Ok? {
          LayersRecorded(runner1, res.value, layers[1..], ctx, oracle);
        }
      }
    }
  }

  /** Fail-fast: while a failure stays on record for a stage outside the
      layers, every stage of every layer is recorded Skipped with
      "Previous stage failed" and nothing runs. */
  lemma {:induction false} FailureSkipsLayers(runner: Runner, all: map<Stage, StageResult>, layers: seq<seq<Stage>>, ctx: StageContext, oracle: Oracle, f: Stage)
    requires f in runner.results && runner.results[f].Failed? && f !in Flatten(layers)
    ensures var ss := Elems(Flatten(layers));
      RunLayers(runner, all, layers, ctx, oracle)
        == (Ok(all + SkipMap(ss)), Runner(runner.results + SkipMap(ss), runner.statuses + SkipStatuses(ss)))
    decreases |layers|
  {
    var ss := Elems(Flatten(layers));
    if |layers| == 0 {
      assert ss == {};
      assert all + SkipMap(ss) == all;
      assert runner.results + SkipMap(ss) == runner.results;
      assert runner.statuses + SkipStatuses(ss) == runner.statuses;
    } else {
      var layer := layers[0];
      assert Flatten(layers) == layer + Flatten(layers[1..]);
      ElemsAppend(layer, Flatten(layers[1..]));
      var rest := Elems(Flatten(layers[1..]));
      var (runner1, all1) := SkipLayer(runner, all, layer);
      assert f in runner1.results && runner1.results[f].Failed?;
      FailureSkipsLayers(runner1, all1, layers[1..], ctx, oracle, f);
      SkipMapUnion(all, Elems(layer), rest);
      SkipMapUnion(runner.results, Elems(layer), rest);
      SkipStatusesUnion(runner.statuses, Elems(layer), rest);
    }
  }

  lemma SkipMapUnion(m: map<Stage, StageResult>, a: set<Stage>, b: set<Stage>)
    ensures m + SkipMap(a) + SkipMap(b) == m + SkipMap(a + b)
  {
  }

  lemma SkipStatusesUnion(m: map<Stage, StageStatus>, a: set<Stage>, b: set<Stage>)
    ensures m + SkipStatuses(a) + SkipStatuses(b) == m + SkipStatuses(a + b)
  {
  }

  /** Once a layer leaves a failed result for one of its stages, every
      stage of every later layer is skipped with "Previous stage failed". */
  lemma FailureSkipsLaterLayers(runner: Runner, all: map<Stage, StageResult>, layers: seq<seq<Stage>>, ctx: StageContext, oracle: Oracle, f: Stage)
    requires |layers| > 0 && !AnyFailed(runner.results) && Recorded(all, runner)
    requires var step := RunLayer(runner, all, layers[0], ctx, oracle);
      step.0.Ok? && f in step.0.value && step.0.value[f].Failed? && f !in Flatten(layers[1..])
    ensures var step := RunLayer(runner, all, layers[0], ctx, oracle);
      RunLayers(runner, all, layers, ctx, oracle).0 == Ok(step.0.value + SkipMap(Elems(Flatten(layers[1..]))))
  {
    var (res, runner1) := RunLayer(runner, all, layers[0], ctx, oracle);
    LayerRecorded(runner, all, layers[0], ctx, oracle);
    FailureSkipsLayers(runner1, res.value, layers[1..], ctx, oracle, f);
  }

  /** After the sort: a failed sort ends the call before anything runs;
      otherwise each stage runs in a fresh context built from the builder,
      which carries no executable. */
  function RunSorted(runner: Runner, sorted: Result<seq<seq<Stage>>, GraphError>, ctx: StageContext, oracle: Oracle): (r: (Result<map<Stage, StageResult>, string>, Runner))
    ensures sorted.Err? ==> r == (Err(SORT_FAILED), runner)
    ensures sorted.Ok? ==> r == RunLayers(runner, map[], sorted.value, NewContext(ctx.builder), oracle)
  {
    match sorted
    case Err(_) => (Err(SORT_FAILED), runner)
    case Ok(layers) => RunLayers(runner, map[], layers, NewContext(ctx.builder), oracle)
  }

  /** `execute_with_dependencies`. The hash-map iteration orders the sort
      depends on are inputs. */
  function ExecuteWithDependencies(runner: Runner, stages: seq<Stage>, ctx: StageContext, oracle: Oracle,
                                   degreeOrder: seq<Stage>, stageOrder: seq<Stage>): (r: (Result<map<Stage, StageResult>, string>, Runner))
    requires IsEnumeration(degreeOrder, FromStages(stages).inDegree.Keys)
    requires IsEnumeration(stageOrder, FromStages(stages).stages)
  {
    RunSorted(runner, TopologicalSort(FromStages(stages), degreeOrder, stageOrder), ctx, oracle)
  }

  /** The call never aborts on the sort (the default dependencies have no
      cycle); it reports only requested stages, each as the runner
      recorded it. */
  lemma DependenciesRecorded(runner: Runner, stages: seq<Stage>, ctx: StageContext, oracle: Oracle,
                             degreeOrder: seq<Stage>, stageOrder: seq<Stage>)
    requires IsEnumeration(degreeOrder, FromStages(stages).inDegree.Keys)
    requires IsEnumeration(stageOrder, FromStages(stages).stages)
    ensures TopologicalSort(FromStages(stages), degreeOrder, stageOrder).Ok?
    ensures var r := ExecuteWithDependencies(runner, stages, ctx, oracle, degreeOrder, stageOrder);
      r.0.Ok? ==> r.0.value.Keys <= Elems(stages) && Recorded(r.0.value, r.1)
  {
    var g := FromStages(stages);
    FromStagesSorts(stages, degreeOrder, stageOrder);
    var sorted := TopologicalSort(g, degreeOrder, stageOrder);
    assert Elems(Flatten(sorted.value)) == Elems(stages);
    SortedRecorded(runner, sorted.value, ctx, oracle);
  }

  lemma SortedRecorded(runner: Runner, layers: seq<seq<Stage>>, ctx: StageContext, oracle: Oracle)
    ensures var r := RunSorted(runner, Ok(layers), ctx, oracle);
      r.0.Ok? ==> r.0.value.Keys <= Elems(Flatten(layers)) && Recorded(r.0.value, r.1)
  {
    LayersRecorded(runner, map[], layers, NewContext(ctx.builder), oracle);
  }

  /** A failure left in the runner by an earlier call that was not cleared
      skips every requested stage, when the failed stage is not requested
      again. */
  lemma StaleFailureSkipsAll(runner: Runner, stages: seq<Stage>, ctx: StageContext, oracle: Oracle,
                             degreeOrder: seq<Stage>, stageOrder: seq<Stage>, f: Stage)
    requires IsEnumeration(degreeOrder, FromStages(stages).inDegree.Keys)
    requires IsEnumeration(stageOrder, FromStages(stages).stages)
    requires f in runner.results && runner.results[f].Failed? && f !in stages
    ensures var r := ExecuteWithDependencies(runner, stages, ctx, oracle, degreeOrder, stageOrder);
      && r.0 == Ok(SkipMap(Elems(stages)))
      && forall s :: s in stages ==> GetStatus(r.1, s) == Some(SkippedStatus)
  {
    var g := FromStages(stages);
    FromStagesSorts(stages, degreeOrder, stageOrder);
    var sorted := TopologicalSort(g, degreeOrder, stageOrder);
    assert Elems(Flatten(sorted.value)) == Elems(stages);
    SortedSkipped(runner, sorted.value, ctx, oracle, f);
  }

  lemma SortedSkipped(runner: Runner, layers: seq<seq<Stage>>, ctx: StageContext, oracle: Oracle, f: Stage)
    requires f in runner.results && runner.results[f].Failed? && f !in Elems(Flatten(layers))
    ensures var r := RunSorted(runner, Ok(layers), ctx, oracle);
      && r.0 == Ok(SkipMap(Elems(Flatten(layers))))
      && forall s :: s in Elems(Flatten(layers)) ==> GetStatus(r.1, s) == Some(SkippedStatus)
  {
    FailureSkipsLayers(runner, map[], layers, NewContext(ctx.builder), oracle, f);
    EmptyMapUnion(SkipMap(Elems(Flatten(layers))));
  }

  /** Exec run through the dependency walk always fails for want of an
      executable, whatever context the caller passed. */
  lemma ExecViaDependenciesFails(runner: Runner, all: map<Stage, StageResult>, ctx: StageContext, oracle: Oracle)
    ensures ExecuteStage(runner, Exec, NewContext(ctx.builder), oracle).0 == Ok(Failed(EXEC_NEEDS_INFO, 0.0, 0))
    ensures RunLayers(runner, all, [[Exec]], NewContext(ctx.builder), oracle).0.Ok?
  {
  }

  /** Requested together, Exec and Clean share the first layer, which runs
      in order since Clean may not run concurrently. When Exec comes first
      it fails, and Clean gets no result at all. */
  lemma ExecFailureStopsLayer(runner: Runner, ctx: StageContext, oracle: Oracle)
    ensures var r := RunLayer(runner, map[], [Exec, Clean], NewContext(ctx.builder), oracle);
      r.0 == Ok(map[Exec := Failed(EXEC_NEEDS_INFO, 0.0, 0)]) && Clean !in r.0.value
  {
    assert !RunsConcurrently([Exec, Clean]) by {
      assert !CanRunConcurrent([Exec, Clean][1]);
    }
  }
}
