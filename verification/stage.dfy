/**
 * The pipeline stages: a closed set of eight variants whose metadata and
 * default dependencies are fixed tables.
 */
module Stages {
  import opened Common

  datatype Stage = PreValidation | Configure | Build | Install | Clean | PostBuild | Test | Exec

  datatype StageMetadata = StageMetadata(description: string, canRunConcurrent: bool, isOptional: bool)

  /** The metadata table of `Stage::metadata`. */
  function Metadata(s: Stage): StageMetadata
  {
    match s
    case PreValidation => StageMetadata("Pre-validation checks", false, true)
    case Configure => StageMetadata("CMake configuration", false, false)
    case Build => StageMetadata("Building project", false, false)
    case Install => StageMetadata("Installing artifacts", true, false)
    case Clean => StageMetadata("Cleaning build artifacts", false, false)
    case PostBuild => StageMetadata("Post-build processing", true, true)
    case Test => StageMetadata("Running tests", true, true)
    case Exec => StageMetadata("Executing program", false, false)
  }

  predicate CanRunConcurrent(s: Stage)
  {
    Metadata(s).canRunConcurrent
  }

  predicate IsOptional(s: Stage)
  {
    Metadata(s).isOptional
  }

  /** The dependency table of `Stage::default_dependencies`: the stages that
      must have run before `s`. */
  function DefaultDependencies(s: Stage): seq<Stage>
  {
    match s
    case PreValidation => []
    case Configure => [PreValidation]
    case Build => [Configure]
    case Install => [Build]
    case PostBuild => [Build]
    case Test => [Build]
    case Exec => [Build, Install]
    case Clean => []
  }

  /** `Stage::all()`. */
  function All(): seq<Stage>
  {
    [PreValidation, Configure, Build, Install, Clean, PostBuild, Test, Exec]
  }

  /** `Display for Stage`: the variant name. */
  function Name(s: Stage): string
  {
    match s
    case PreValidation => "PreValidation"
    case Configure => "Configure"
    case Build => "Build"
    case Install => "Install"
    case Clean => "Clean"
    case PostBuild => "PostBuild"
    case Test => "Test"
    case Exec => "Exec"
  }

  /** Only Install, PostBuild and Test may share a concurrent layer; only
      PreValidation, PostBuild and Test are optional. */
  lemma MetadataFlags(s: Stage)
    ensures CanRunConcurrent(s) <==> s in {Install, PostBuild, Test}
    ensures IsOptional(s) <==> s in {PreValidation, PostBuild, Test}
    ensures s == Build ==> !CanRunConcurrent(s) && !IsOptional(s)
    ensures Metadata(Build).description == "Building project"
  {
  }

  /** `all()` lists every variant exactly once. */
  lemma AllIsEnumeration()
    ensures |All()| == 8
    ensures NoDups(All())
    ensures forall s: Stage :: s in All()
  {
    forall s: Stage
      ensures s in All()
    {
      var a := All();
      match s
      case PreValidation => assert a[0] == s;
      case Configure => assert a[1] == s;
      case Build => assert a[2] == s;
      case Install => assert a[3] == s;
      case Clean => assert a[4] == s;
      case PostBuild => assert a[5] == s;
      case Test => assert a[6] == s;
      case Exec => assert a[7] == s;
    }
  }

  /** Distinct stages print differently, and each prints as a non-empty word. */
  lemma NameInjective(a: Stage, b: Stage)
    ensures Name(a) == Name(b) ==> a == b
    ensures |Name(a)| > 0
  {
  }

  /** A rank that every default dependency strictly lowers. */
  function Depth(s: Stage): nat
  {
    match s
    case PreValidation => 0
    case Clean => 0
    case Configure => 1
    case Build => 2
    case Install => 3
    case PostBuild => 3
    case Test => 3
    case Exec => 4
  }

  /** Every default dependency of `s` sits strictly lower than `s`, so no
      stage lists itself. */
  lemma DependenciesDescend(s: Stage)
    ensures forall d :: d in DefaultDependencies(s) ==> Depth(d) < Depth(s)
    ensures s !in DefaultDependencies(s)
  {
  }

  /** `path` follows default-dependency edges: each element depends on the
      one before it. */
  predicate IsDependencyPath(path: seq<Stage>)
  {
    forall k :: 0 < k < |path| ==> path[k - 1] in DefaultDependencies(path[k])
  }

  lemma {:induction false} DependencyPathDepth(path: seq<Stage>)
    requires |path| > 0 && IsDependencyPath(path)
    ensures Depth(path[0]) + |path| - 1 <= Depth(path[|path| - 1])
  {
    if |path| > 1 {
      var front := path[..|path| - 1];
      assert IsDependencyPath(front) by {
        forall k | 0 < k < |front|
          ensures front[k - 1] in DefaultDependencies(front[k])
        {
          assert front[k - 1] == path[k - 1] && front[k] == path[k];
        }
      }
      DependencyPathDepth(front);
      DependenciesDescend(path[|path| - 1]);
    }
  }

  /** The default dependency relation over all eight stages is acyclic: no
      non-trivial dependency path returns to its start. */
  lemma DefaultDependenciesAcyclic(path: seq<Stage>)
    requires |path| > 1 && IsDependencyPath(path)
    ensures path[0] != path[|path| - 1]
  {
    DependencyPathDepth(path);
  }
}
