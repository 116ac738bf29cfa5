/**
 * The builder: the targets of a project, the directories derived from
 * them, and the step lists for building and cleaning them.
 */
module Builders {
  import opened Common
  import opened Commands

  datatype TargetKind = Root | Executable | Installer

  /** A target: its directory, its kind, and the `build.name` of its
      configuration (the only configuration field the steps read). */
  datatype Target = Target(path: string, kind: TargetKind, name: Option<string>)

  datatype ExecutableInfo = ExecutableInfo(path: string, name: string, projectDir: string, buildDir: string, installDir: string)

  datatype Builder = Builder(preset: string, root: Target, targets: seq<Target>, cmake: CMakeCommands)

  /** `PathBuf::join` followed by `display`, for Unix paths: an absolute
      component replaces the base; otherwise a '/' is inserted unless the
      base is empty or already ends in one. */
  function PathJoin(base: string, component: string): string
  {
    if |component| > 0 && component[0] == '/' then component
    else if |base| == 0 || base[|base| - 1] == '/' then base + component
    else base + "/" + component
  }

  /** The joined path ends with the component; an absolute component
      replaces the base, and a relative one keeps the base as a prefix with
      exactly one separator between them when the base is non-empty. */
  lemma PathJoinShape(base: string, component: string)
    ensures EndsWith(PathJoin(base, component), component)
    ensures |component| > 0 && component[0] == '/' ==> PathJoin(base, component) == component
    ensures (|component| == 0 || component[0] != '/') ==>
      && StartsWith(PathJoin(base, component), base)
      && (|base| > 0 && base[|base| - 1] != '/' ==> PathJoin(base, component) == base + "/" + component)
  {
    var r := PathJoin(base, component);
    assert r[|r| - |component|..] == component;
    if |component| == 0 || component[0] != '/' {
      assert r[..|base|] == base;
    }
  }

  /** `Builder::new`: no targets yet, and Ninja on. */
  function NewBuilder(root: Target, preset: string): (b: Builder)
    ensures b.targets == [] && b.root == root && b.preset == preset
    ensures b.cmake == CMakeCommands(preset, true)
  {
    Builder(preset, root, [], CMakeCommands(preset, true))
  }

  /** `with_ninja`: rebuilds the commands with the builder's own preset. */
  function WithNinja(b: Builder, ninja: bool): (r: Builder)
    ensures r.cmake == CMakeCommands(b.preset, ninja)
    ensures r.preset == b.preset && r.root == b.root && r.targets == b.targets
  {
    b.(cmake := CMakeCommands(b.preset, ninja))
  }

  function WithTargets(b: Builder, targets: seq<Target>): (r: Builder)
    ensures r.targets == targets
    ensures r.preset == b.preset && r.root == b.root && r.cmake == b.cmake
  {
    b.(targets := targets)
  }

  /** `get_dirs`: the build directory lives under the given target, the
      install directory under the root whatever the target. */
  function GetDirs(b: Builder, targetPath: string, preset: string): (dirs: (string, string))
    ensures dirs.0 == PathJoin(PathJoin(targetPath, "builds"), preset)
    ensures dirs.1 == PathJoin(b.root.path, "install")
  {
    (PathJoin(PathJoin(targetPath, "builds"), preset), PathJoin(b.root.path, "install"))
  }

  /** `get_root_dirs`: the same layout with the root as the target. */
  function GetRootDirs(b: Builder): (dirs: (string, string))
    ensures dirs == GetDirs(b, b.root.path, b.preset)
  {
    (PathJoin(PathJoin(b.root.path, "builds"), b.preset), PathJoin(b.root.path, "install"))
  }

  /** The install directory does not depend on the target, and the build
      directory ends with the preset. */
  lemma InstallDirSharedByTargets(b: Builder, path1: string, path2: string, preset: string)
    ensures GetDirs(b, path1, preset).1 == GetDirs(b, path2, preset).1 == GetRootDirs(b).1
    ensures EndsWith(GetDirs(b, path1, preset).0, preset)
  {
    PathJoinShape(PathJoin(path1, "builds"), preset);
  }

  /** A target's display name: `build.name`, or "project". */
  function TargetName(t: Target): (name: string)
    ensures t.name.Some? ==> name == t.name.value
    ensures t.name.None? ==> name == "project"
  {
    match t.name
    case Some(n) => n
    case None => "project"
  }

  function BuildDirOf(b: Builder, t: Target): string
  {
    GetDirs(b, t.path, b.preset).0
  }

  function InstallDirOf(b: Builder): string
  {
    PathJoin(b.root.path, "install")
  }

  /** The three kinds of per-target step the generators emit. */
  datatype StepKind = ConfigureKind | BuildKind | InstallKind

  /** A step before rendering: which kind, for which target. */
  datatype Planned = Planned(kind: StepKind, target: Target)

  /** Renders one planned step. The configure step is always described as
      "Configuring CMake" and the install step as "Installing artifacts";
      only the build step carries the target's name. */
  function RenderStep(b: Builder, p: Planned): (step: BuildStep)
    ensures p.kind == ConfigureKind ==> step == ConfigureStep(b.cmake, "CMake", p.target.path, BuildDirOf(b, p.target))
    ensures p.kind == BuildKind ==> step == BuildStepFor(TargetName(p.target), BuildDirOf(b, p.target))
    ensures p.kind == InstallKind ==> step == InstallStep("artifacts", BuildDirOf(b, p.target), InstallDirOf(b))
  {
    var t := p.target;
    match p.kind
    case ConfigureKind => ConfigureStep(b.cmake, "CMake", t.path, BuildDirOf(b, t))
    case BuildKind => BuildStepFor(TargetName(t), BuildDirOf(b, t))
    case InstallKind => InstallStep("artifacts", BuildDirOf(b, t), InstallDirOf(b))
  }

  /** Renders a plan, step by step. */
  function Render(b: Builder, plan: seq<Planned>): (steps: seq<BuildStep>)
    ensures |steps| == |plan|
    ensures forall i :: 0 <= i < |plan| ==> steps[i] == RenderStep(b, plan[i])
  {
    seq(|plan|, i requires 0 <= i < |plan| => RenderStep(b, plan[i]))
  }

  /** A step's description tells its kind: the three kinds use three
      different leading words. */
  lemma RenderedKind(b: Builder, p: Planned)
    ensures StartsWith(RenderStep(b, p).description, "Configuring ") <==> p.kind == ConfigureKind
    ensures StartsWith(RenderStep(b, p).description, "Building ") <==> p.kind == BuildKind
    ensures StartsWith(RenderStep(b, p).description, "Installing ") <==> p.kind == InstallKind
  {
    var d := RenderStep(b, p).description;
    match p.kind
    case ConfigureKind => assert d[0] == 'C';
    case BuildKind => assert d[0] == 'B';
    case InstallKind => assert d[0] == 'I';
  }

  /** What `generate_build_all` emits for one target. */
  function TargetPlan(t: Target): (plan: seq<Planned>)
    ensures |plan| == if t.kind == Installer then 3 else 2
  {
    [Planned(ConfigureKind, t), Planned(BuildKind, t)] + (if t.kind == Installer then [Planned(InstallKind, t)] else [])
  }

  /** The number of Installer targets among the first `i` targets. */
  function InstallersUpTo(ts: seq<Target>, i: nat): nat
    requires i <= |ts|
  {
    if i == 0 then 0 else InstallersUpTo(ts, i - 1) + (if ts[i - 1].kind == Installer then 1 else 0)
  }

  lemma InstallersStep(ts: seq<Target>, i: nat)
    requires i < |ts|
    ensures InstallersUpTo(ts, i + 1) == InstallersUpTo(ts, i) + (if ts[i].kind == Installer then 1 else 0)
  {
  }

  /** The plans of the first `i` targets, one after the other. */
  function PlanUpTo(ts: seq<Target>, i: nat): seq<Planned>
    requires i <= |ts|
  {
    if i == 0 then [] else PlanUpTo(ts, i - 1) + TargetPlan(ts[i - 1])
  }

  lemma {:induction false} PlanUpToLength(ts: seq<Target>, i: nat)
    requires i <= |ts|
    ensures |PlanUpTo(ts, i)| == 2 * i + InstallersUpTo(ts, i)
  {
    if i > 0 {
      PlanUpToLength(ts, i - 1);
    }
  }

  /** Step `j` of target `k`'s block sits at offset
      `2k + (installers before k) + j`, and later blocks do not disturb it. */
  lemma {:induction false} PlanUpToAt(ts: seq<Target>, k: nat, n: nat, j: nat)
    requires k < n <= |ts| && j < |TargetPlan(ts[k])|
    ensures 2 * k + InstallersUpTo(ts, k) + j < |PlanUpTo(ts, n)|
    ensures PlanUpTo(ts, n)[2 * k + InstallersUpTo(ts, k) + j] == TargetPlan(ts[k])[j]
  {
    PlanUpToLength(ts, k);
    PlanUpToLength(ts, n);
    if n > k + 1 {
      PlanUpToAt(ts, k, n - 1, j);
      PlanUpToLength(ts, n - 1);
    }
  }

  /** `generate_build_all`: for each target in order, configure and build,
      and install only for Installer targets. */
  method GenerateBuildAll(b: Builder) returns (steps: seq<BuildStep>)
    ensures steps == Render(b, PlanUpTo(b.targets, |b.targets|))
    ensures |steps| == 2 * |b.targets| + InstallersUpTo(b.targets, |b.targets|)
  {
    steps := [];
    var i := 0;
    while i < |b.targets|
      invariant 0 <= i <= |b.targets|
      invariant steps == Render(b, PlanUpTo(b.targets, i))
    {
      var t := b.targets[i];
      var block := [RenderStep(b, Planned(ConfigureKind, t)), RenderStep(b, Planned(BuildKind, t))];
      if t.kind == Installer {
        block := block + [RenderStep(b, Planned(InstallKind, t))];
      }
      RenderTarget(b, t, block);
      RenderAppend(b, PlanUpTo(b.targets, i), TargetPlan(t));
      steps := steps + block;
      i := i + 1;
    }
    PlanUpToLength(b.targets, i);
  }

  lemma RenderTarget(b: Builder, t: Target, block: seq<BuildStep>)
    requires block == [RenderStep(b, Planned(ConfigureKind, t)), RenderStep(b, Planned(BuildKind, t))]
                      + (if t.kind == Installer then [RenderStep(b, Planned(InstallKind, t))] else [])
    ensures block == Render(b, TargetPlan(t))
  {
  }

  lemma RenderAppend(b: Builder, p: seq<Planned>, q: seq<Planned>)
    ensures Render(b, p + q) == Render(b, p) + Render(b, q)
  {
  }

  /** A step past a non-installer's two-step block belongs to a later target. */
  lemma NextBlockExists(ts: seq<Target>, k: nat, n: nat)
    requires k < n <= |ts| && ts[k].kind != Installer
    requires 2 * k + InstallersUpTo(ts, k) + 2 < |PlanUpTo(ts, n)|
    ensures k + 1 < n
  {
    PlanUpToLength(ts, n);
    if k + 1 == n {
      InstallersStep(ts, k);
    }
  }

  /** In the plan of all targets, target `k`'s block is configure, build,
      and then an install step exactly when the target is an Installer. */
  lemma PlanShape(ts: seq<Target>, k: nat, n: nat)
    requires k < n <= |ts|
    ensures var plan := PlanUpTo(ts, n);
      var off := 2 * k + InstallersUpTo(ts, k);
      && off + 1 < |plan|
      && plan[off] == Planned(ConfigureKind, ts[k])
      && plan[off + 1] == Planned(BuildKind, ts[k])
      && (ts[k].kind == Installer <==> off + 2 < |plan| && plan[off + 2].kind == InstallKind)
  {
    PlanUpToAt(ts, k, n, 0);
    PlanUpToAt(ts, k, n, 1);
    if ts[k].kind == Installer {
      PlanUpToAt(ts, k, n, 2);
    } else if 2 * k + InstallersUpTo(ts, k) + 2 < |PlanUpTo(ts, n)| {
      NextBlockExists(ts, k, n);
      InstallersStep(ts, k);
      PlanUpToAt(ts, k + 1, n, 0);
    }
  }

  /** The block of target `k` in `generate_build_all` is its configure
      step, then its build step, then an install step exactly when the
      target is an Installer; the whole list has `2n + #installers` steps. */
  lemma BuildAllShape(b: Builder, k: nat)
    requires k < |b.targets|
    ensures var all := Render(b, PlanUpTo(b.targets, |b.targets|));
      var off := 2 * k + InstallersUpTo(b.targets, k);
      var t := b.targets[k];
      && |all| == 2 * |b.targets| + InstallersUpTo(b.targets, |b.targets|)
      && off + 1 < |all|
      && all[off] == ConfigureStep(b.cmake, "CMake", t.path, BuildDirOf(b, t))
      && all[off + 1] == BuildStepFor(TargetName(t), BuildDirOf(b, t))
      && (t.kind == Installer <==> off + 2 < |all| && StartsWith(all[off + 2].description, "Installing "))
  {
    var plan := PlanUpTo(b.targets, |b.targets|);
    var off := 2 * k + InstallersUpTo(b.targets, k);
    PlanUpToLength(b.targets, |b.targets|);
    PlanShape(b.targets, k, |b.targets|);
    var all := Render(b, plan);
    assert all[off] == RenderStep(b, Planned(ConfigureKind, b.targets[k]));
    assert all[off + 1] == RenderStep(b, Planned(BuildKind, b.targets[k]));
    if off + 2 < |plan| {
      assert all[off + 2] == RenderStep(b, plan[off + 2]);
      RenderedKind(b, plan[off + 2]);
    }
  }

  /** `generate_build_target_steps`: configure, a targeted build of the
      executable's own name, and install. */
  function GenerateBuildTargetSteps(b: Builder, info: ExecutableInfo): (steps: seq<BuildStep>)
    ensures |steps| == 3
    ensures steps[0].commands == Configure(b.cmake, info.projectDir, info.buildDir, None)
    ensures steps[1].commands == Build(info.buildDir)[..3] + ["--target", info.name] + Build(info.buildDir)[3..]
    ensures steps[2].commands == Install(info.buildDir, info.installDir)
    ensures forall k :: 0 <= k < 3 ==> Spawnable(steps[k])
  {
    [ ConfigureStep(b.cmake, info.name, info.projectDir, info.buildDir),
      BuildTargetStep(info.name, info.buildDir, info.name),
      InstallStep(info.name, info.buildDir, info.installDir) ]
  }

  /** `generate_clean_target_command`: the targeted build of `clean`. */
  function GenerateCleanTargetCommand(b: Builder, info: ExecutableInfo): (argv: seq<string>)
    ensures argv == BuildTarget(info.buildDir, "clean")
    ensures argv[4] == "clean"
  {
    BuildTarget(info.buildDir, "clean")
  }

  /** `generate_clean_all`: one `rm -rf` step per target, over the target's
      build directory and the shared install directory. */
  function GenerateCleanAll(b: Builder): (steps: seq<BuildStep>)
    ensures |steps| == |b.targets|
    ensures forall i :: 0 <= i < |steps| ==>
      && StripPrefix(steps[i].description, "Cleaning ") == Some(TargetName(b.targets[i]))
      && steps[i].commands == ["rm", "-rf", BuildDirOf(b, b.targets[i]), InstallDirOf(b)]
  {
    seq(|b.targets|, i requires 0 <= i < |b.targets| =>
      CleanStep(TargetName(b.targets[i]), [BuildDirOf(b, b.targets[i]), InstallDirOf(b)]))
  }

  /** `generate_clean_command`. */
  function GenerateCleanCommand(b: Builder, buildDir: string, installDir: string): (argv: seq<string>)
    ensures argv == ["rm", "-rf", buildDir, installDir]
  {
    Clean([buildDir, installDir])
  }

  /** `detect_available_presets`: the same two presets for every directory. */
  function DetectAvailablePresets(sourceDir: string): (presets: seq<string>)
    ensures presets == ["debug", "release"]
  {
    ["debug", "release"]
  }
}
