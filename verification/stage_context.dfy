/**
 * The context a stage runs in, the outcome types of a stage, and the step
 * lists each stage generates.
 */
module StageContexts {
  import opened Common
  import opened Stages
  import opened Commands
  import opened Builders

  /** The outcome of one stage. Durations are carried as opaque values. */
  datatype StageResult =
    | Success(duration: real, stepsExecuted: nat)
    | Failed(error: string, duration: real, stepsExecuted: nat)
    | Skipped(reason: string)

  datatype StageStatus = Pending | Running | Completed | FailedStatus | SkippedStatus

  /** A context: the builder and, for Exec, the executable to run. The log
      and step channels are not part of the model. */
  datatype StageContext = StageContext(builder: Builder, executableInfo: Option<ExecutableInfo>)

  /** `StageContext::new`. */
  function NewContext(builder: Builder): (ctx: StageContext)
    ensures ctx.builder == builder && ctx.executableInfo == None
  {
    StageContext(builder, None)
  }

  /** `with_executable`: sets the executable and nothing else. */
  function WithExecutable(ctx: StageContext, info: ExecutableInfo): (r: StageContext)
    ensures r.executableInfo == Some(info)
    ensures r.builder == ctx.builder
  {
    ctx.(executableInfo := Some(info))
  }

  /** Whether a stage's generator emits a step of `kind` for target `t`:
      configure and build steps for every target, install steps for
      Installer targets only. */
  predicate Emits(kind: StepKind, t: Target)
  {
    kind != InstallKind || t.kind == Installer
  }

  /** The steps of one kind over the first `i` targets, in target order. */
  function StagePlan(kind: StepKind, ts: seq<Target>, i: nat): seq<Planned>
    requires i <= |ts|
  {
    if i == 0 then []
    else StagePlan(kind, ts, i - 1) + (if Emits(kind, ts[i - 1]) then [Planned(kind, ts[i - 1])] else [])
  }

  /** A configure or build stage plan has one step per target, in order. */
  lemma {:induction false} StagePlanEveryTarget(kind: StepKind, ts: seq<Target>, n: nat)
    requires kind != InstallKind && n <= |ts|
    ensures |StagePlan(kind, ts, n)| == n
    ensures forall i :: 0 <= i < n ==> StagePlan(kind, ts, n)[i] == Planned(kind, ts[i])
  {
    if n > 0 {
      StagePlanEveryTarget(kind, ts, n - 1);
    }
  }

  /** An install stage plan has one step per Installer target, each for an
      Installer. */
  lemma {:induction false} StagePlanInstallers(ts: seq<Target>, n: nat)
    requires n <= |ts|
    ensures |StagePlan(InstallKind, ts, n)| == InstallersUpTo(ts, n)
    ensures forall p :: p in StagePlan(InstallKind, ts, n) ==> p.kind == InstallKind && p.target.kind == Installer && p.target in ts
  {
    if n > 0 {
      StagePlanInstallers(ts, n - 1);
    }
  }

  /** `generate_steps_for_stage`. */
  function GenerateStepsForStage(ctx: StageContext, stage: Stage): (steps: seq<BuildStep>)
    ensures stage in {PreValidation, PostBuild, Test, Exec} ==> steps == []
    ensures stage == Clean ==> steps == GenerateCleanAll(ctx.builder)
  {
    var b := ctx.builder;
    match stage
    case PreValidation => []
    case Configure => Render(b, StagePlan(ConfigureKind, b.targets, |b.targets|))
    case Build => Render(b, StagePlan(BuildKind, b.targets, |b.targets|))
    case Install => Render(b, StagePlan(InstallKind, b.targets, |b.targets|))
    case Clean => GenerateCleanAll(b)
    case PostBuild => []
    case Test => []
    case Exec => []
  }

  /** The Configure stage emits one configure step per target and the
      Build stage one build step per target, in target order; the Install
      stage emits exactly as many install steps as there are Installer
      targets. */
  lemma StageStepShapes(ctx: StageContext)
    ensures var b := ctx.builder;
      var configure := GenerateStepsForStage(ctx, Configure);
      && |configure| == |b.targets|
      && forall i :: 0 <= i < |b.targets| ==>
           configure[i] == ConfigureStep(b.cmake, "CMake", b.targets[i].path, BuildDirOf(b, b.targets[i]))
    ensures var b := ctx.builder;
      var build := GenerateStepsForStage(ctx, Build);
      && |build| == |b.targets|
      && forall i :: 0 <= i < |b.targets| ==>
           build[i] == BuildStepFor(TargetName(b.targets[i]), BuildDirOf(b, b.targets[i]))
    ensures var b := ctx.builder;
      var install := GenerateStepsForStage(ctx, Install);
      && |install| == InstallersUpTo(b.targets, |b.targets|)
      && forall i :: 0 <= i < |install| ==> StartsWith(install[i].description, "Installing ")
  {
    var b := ctx.builder;
    var n := |b.targets|;
    StagePlanEveryTarget(ConfigureKind, b.targets, n);
    StagePlanEveryTarget(BuildKind, b.targets, n);
    StagePlanInstallers(b.targets, n);
    var plan := StagePlan(InstallKind, b.targets, n);
    forall i | 0 <= i < |plan|
      ensures StartsWith(Render(b, plan)[i].description, "Installing ")
    {
      assert plan[i] in plan;
      RenderedKind(b, plan[i]);
    }
  }

  /** The steps of one kind in a plan, in order. */
  function Select(plan: seq<Planned>, kind: StepKind): (r: seq<Planned>)
  {
    if |plan| == 0 then []
    else Select(plan[..|plan| - 1], kind) + (if plan[|plan| - 1].kind == kind then [plan[|plan| - 1]] else [])
  }

  lemma {:induction false} SelectAppend(a: seq<Planned>, c: seq<Planned>, kind: StepKind)
    ensures Select(a + c, kind) == Select(a, kind) + Select(c, kind)
    decreases |c|
  {
    if |c| == 0 {
      assert a + c == a;
    } else {
      var c' := c[..|c| - 1];
      assert (a + c)[..|a + c| - 1] == a + c';
      SelectAppend(a, c', kind);
    }
  }

  lemma SelectTargetPlan(t: Target, kind: StepKind)
    ensures Select(TargetPlan(t), kind) == if Emits(kind, t) then [Planned(kind, t)] else []
  {
    var p := TargetPlan(t);
    assert p[..1] == [Planned(ConfigureKind, t)];
    assert p[..2] == [Planned(ConfigureKind, t), Planned(BuildKind, t)];
    assert Select(p[..1], kind) == (if kind == ConfigureKind then [Planned(ConfigureKind, t)] else []) by {
      assert p[..1][..0] == [];
    }
    assert p[..2][..1] == p[..1];
    if t.kind == Installer {
      assert p[..3] == p;
    } else {
      assert p[..2] == p;
    }
  }

  /** `generate_build_all` is the three stage lists interleaved: its
      configure steps, its build steps and its install steps are, in order,
      exactly what the Configure, Build and Install stages emit. */
  lemma {:induction false} BuildAllInterleavesStages(ts: seq<Target>, kind: StepKind, n: nat)
    requires n <= |ts|
    ensures Select(PlanUpTo(ts, n), kind) == StagePlan(kind, ts, n)
  {
    if n > 0 {
      BuildAllInterleavesStages(ts, kind, n - 1);
      SelectAppend(PlanUpTo(ts, n - 1), TargetPlan(ts[n - 1]), kind);
      SelectTargetPlan(ts[n - 1], kind);
    }
  }

  /** The same fact stated on the rendered steps of a context's builder. */
  lemma BuildAllMatchesStageSteps(ctx: StageContext)
    ensures var b := ctx.builder;
      var all := PlanUpTo(b.targets, |b.targets|);
      && Render(b, Select(all, ConfigureKind)) == GenerateStepsForStage(ctx, Configure)
      && Render(b, Select(all, BuildKind)) == GenerateStepsForStage(ctx, Build)
      && Render(b, Select(all, InstallKind)) == GenerateStepsForStage(ctx, Install)
  {
    var ts := ctx.builder.targets;
    BuildAllInterleavesStages(ts, ConfigureKind, |ts|);
    BuildAllInterleavesStages(ts, BuildKind, |ts|);
    BuildAllInterleavesStages(ts, InstallKind, |ts|);
  }
}
