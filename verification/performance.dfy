/**
 * The two description readers of the performance tab: the classifier that
 * sorts recorded steps into Configure, Build, Install and Other panels,
 * the extraction of a project name from a step description, and the fixed
 * order in which the panels appear.
 */
module PerformanceTab {
  import opened Common
  import Commands
  import History

  /** The four panel kinds; the program spells them as the strings
      "Configure", "Build", "Install" and "Other". */
  datatype StepType = Configure | Build | Install | Other

  function StepTypeName(t: StepType): string
  {
    match t
    case Configure => "Configure"
    case Build => "Build"
    case Install => "Install"
    case Other => "Other"
  }

  lemma StepTypeNameInjective(a: StepType, b: StepType)
    ensures StepTypeName(a) == StepTypeName(b) ==> a == b
  {
    if StepTypeName(a) == StepTypeName(b) {
      assert StepTypeName(a)[0] == StepTypeName(b)[0];
    }
  }

  /** The three step prefixes begin with different letters, so a
      description carries at most one of them. */
  lemma PrefixesExclusive(d: string)
    ensures !(StartsWith(d, "Configuring") && StartsWith(d, "Building"))
    ensures !(StartsWith(d, "Configuring") && StartsWith(d, "Installing"))
    ensures !(StartsWith(d, "Building") && StartsWith(d, "Installing"))
  {
    if StartsWith(d, "Configuring") { assert d[0] == "Configuring"[0]; }
    if StartsWith(d, "Building") { assert d[0] == "Building"[0]; }
  }

  /** `extract_step_type`: a description that starts with "Configuring" or
      mentions "CMake" anywhere is a Configure step; otherwise the
      "Building" and "Installing" prefixes decide, and anything else is
      Other. */
  function ExtractStepType(description: string): (r: StepType)
    ensures r == Configure <==> StartsWith(description, "Configuring") || Contains(description, "CMake")
    ensures r == Build <==> StartsWith(description, "Building") && !Contains(description, "CMake")
    ensures r == Install <==> StartsWith(description, "Installing") && !Contains(description, "CMake")
    ensures r == Other <==> !StartsWith(description, "Configuring") && !StartsWith(description, "Building")
                            && !StartsWith(description, "Installing") && !Contains(description, "CMake")
  {
    PrefixesExclusive(description);
    if StartsWith(description, "Configuring") || Contains(description, "CMake") then Configure
    else if StartsWith(description, "Building") then Build
    else if StartsWith(description, "Installing") then Install
    else Other
  }

  /** No occurrence of `p` in `pre + name` starts inside `pre`. */
  predicate NoEarlyOccurrence(pre: string, name: string, p: string)
  {
    forall i | 0 <= i < |pre| :: !OccursAt(pre + name, p, i)
  }

  /** Under that condition, `pre + name` mentions `p` exactly when `name`
      does. */
  lemma ContainsAfterPrefix(pre: string, name: string, p: string)
    requires NoEarlyOccurrence(pre, name, p)
    ensures Contains(pre + name, p) <==> Contains(name, p)
  {
    var s := pre + name;
    if Contains(s, p) {
      var i :| 0 <= i <= |s| - |p| && OccursAt(s, p, i);
      assert i >= |pre|;
      assert name[i - |pre|..i - |pre| + |p|] == s[i..i + |p|];
      assert OccursAt(name, p, i - |pre|);
    }
    if Contains(name, p) {
      var j :| 0 <= j <= |name| - |p| && OccursAt(name, p, j);
      assert s[|pre| + j..|pre| + j + |p|] == name[j..j + |p|];
      assert OccursAt(s, p, |pre| + j);
    }
  }

  /** "CMake" begins with "CM", so it can only start inside a prefix at a
      'C' followed by 'M' there (or by the name's first character when the
      'C' is the prefix's last). None of the step prefixes other than
      "Configuring " has such a place. */
  lemma NoCMakeInPrefix(pre: string, name: string)
    requires pre in ["Building ", "Installing ", "Cleaning "]
    ensures NoEarlyOccurrence(pre, name, "CMake")
  {
    forall i | 0 <= i < |pre|
      ensures !OccursAt(pre + name, "CMake", i)
    {
      var s := pre + name;
      assert pre[i] != 'C' || (i + 1 < |pre| && pre[i + 1] != 'M');
      if i + 5 <= |s| {
        assert s[i..i + 5][0] == s[i] && s[i..i + 5][1] == s[i + 1];
      }
    }
  }

  /** A configure step is always classed Configure. */
  lemma ConfigureStepsClassified(c: Commands.CMakeCommands, name: string, sourceDir: string, buildDir: string, prefix: Option<string>)
    ensures ExtractStepType(Commands.ConfigureStepWithPrefix(c, name, sourceDir, buildDir, prefix).description) == Configure
  {
    var d := Commands.ConfigureStepWithPrefix(c, name, sourceDir, buildDir, prefix).description;
    assert d[..11] == "Configuring";
  }

  /** The "CMake" test runs before the prefix tests: a build step is classed
      Build only when its project name does not mention "CMake". */
  lemma BuildStepsClassified(name: string, buildDir: string, target: string)
    ensures ExtractStepType(Commands.BuildStepFor(name, buildDir).description)
         == (if Contains(name, "CMake") then Configure else Build)
    ensures ExtractStepType(Commands.BuildTargetStep(name, buildDir, target).description)
         == (if Contains(name, "CMake") then Configure else Build)
  {
    var d := "Building " + name;
    assert Commands.BuildStepFor(name, buildDir).description == d;
    assert Commands.BuildTargetStep(name, buildDir, target).description == d;
    NoCMakeInPrefix("Building ", name);
    ContainsAfterPrefix("Building ", name, "CMake");
    assert d[..8] == "Building";
    assert d[0] != "Configuring"[0];
  }

  /** Likewise an install step is classed Install only without "CMake" in
      its name. */
  lemma InstallStepsClassified(name: string, buildDir: string, installDir: string)
    ensures ExtractStepType(Commands.InstallStep(name, buildDir, installDir).description)
         == (if Contains(name, "CMake") then Configure else Install)
  {
    var d := "Installing " + name;
    assert Commands.InstallStep(name, buildDir, installDir).description == d;
    NoCMakeInPrefix("Installing ", name);
    ContainsAfterPrefix("Installing ", name, "CMake");
    assert d[..10] == "Installing";
    assert d[0] != "Configuring"[0] && d[0] != "Building"[0];
  }

  /** A clean step has no panel of its own: it falls under Other, or under
      Configure when its name mentions "CMake". */
  lemma CleanStepsClassified(name: string, paths: seq<string>)
    ensures ExtractStepType(Commands.CleanStep(name, paths).description)
         == (if Contains(name, "CMake") then Configure else Other)
  {
    var d := "Cleaning " + name;
    assert Commands.CleanStep(name, paths).description == d;
    NoCMakeInPrefix("Cleaning ", name);
    ContainsAfterPrefix("Cleaning ", name, "CMake");
    assert d[1] != "Configuring"[1];
    assert d[0] != "Building"[0] && d[0] != "Installing"[0];
  }

  /** `extract_project_name`: the text after exactly one of the prefixes
      "Configuring ", "Building " or "Installing " (space included), tried
      in that order; any other description is returned whole. */
  function ExtractProjectName(description: string): (r: string)
    ensures StartsWith(description, "Configuring ") ==> "Configuring " + r == description
    ensures !StartsWith(description, "Configuring ") && StartsWith(description, "Building ") ==> "Building " + r == description
    ensures !StartsWith(description, "Configuring ") && !StartsWith(description, "Building ") && StartsWith(description, "Installing ")
      ==> "Installing " + r == description
    ensures !StartsWith(description, "Configuring ") && !StartsWith(description, "Building ") && !StartsWith(description, "Installing ")
      ==> r == description
  {
    match StripPrefix(description, "Configuring ")
    case Some(rest) => rest
    case None =>
      match StripPrefix(description, "Building ")
      case Some(rest) => rest
      case None =>
        match StripPrefix(description, "Installing ")
        case Some(rest) => rest
        case None => description
  }

  /** The project name a step was built with is read back from its
      description, for every step kind that carries a recognised prefix. */
  lemma ProjectNameRoundTrip(c: Commands.CMakeCommands, name: string, a: string, b: string, prefix: Option<string>)
    ensures ExtractProjectName(Commands.ConfigureStepWithPrefix(c, name, a, b, prefix).description) == name
    ensures ExtractProjectName(Commands.BuildStepFor(name, a).description) == name
    ensures ExtractProjectName(Commands.BuildTargetStep(name, a, b).description) == name
    ensures ExtractProjectName(Commands.InstallStep(name, a, b).description) == name
  {
    var cfg := "Configuring " + name;
    assert cfg[..12] == "Configuring ";
    var bld := "Building " + name;
    assert bld[0] != "Configuring "[0];
    assert bld[..9] == "Building ";
    var ins := "Installing " + name;
    assert ins[0] != "Configuring "[0] && ins[0] != "Building "[0];
    assert ins[..11] == "Installing ";
  }

  /** A clean step's description is shown whole. */
  lemma CleanDescriptionKept(name: string, paths: seq<string>)
    ensures ExtractProjectName(Commands.CleanStep(name, paths).description) == "Cleaning " + name
  {
    var d := "Cleaning " + name;
    assert Commands.CleanStep(name, paths).description == d;
    assert d[1] != "Configuring "[1];
    assert d[0] != "Building "[0] && d[0] != "Installing "[0];
  }

  /** The steps of one panel, in the order they were recorded, as the
      grouping loop pushes them. */
  function Group(steps: seq<History.BuildStepResult>, t: StepType): (r: seq<History.BuildStepResult>)
    ensures |r| <= |steps|
    ensures forall s :: s in r <==> s in steps && ExtractStepType(s.description) == t
    ensures |steps| == 1 ==> r == (if ExtractStepType(steps[0].description) == t then steps else [])
  {
    if |steps| == 0 then []
    else
      var rest := Group(steps[1..], t);
      assert forall s :: s in steps <==> s == steps[0] || s in steps[1..];
      if ExtractStepType(steps[0].description) == t then [steps[0]] + rest else rest
  }

  /** A panel keeps the recorded order: on a concatenation it is the first
      part's steps of that kind followed by the second part's. */
  lemma {:induction false} GroupAppend(a: seq<History.BuildStepResult>, b: seq<History.BuildStepResult>, t: StepType)
    ensures Group(a + b, t) == Group(a, t) + Group(b, t)
    decreases |a|
  {
    if |a| > 0 {
      assert (a + b)[1..] == a[1..] + b;
      GroupAppend(a[1..], b, t);
    } else {
      assert a + b == b;
    }
  }

  /** Every step lands in exactly one of the four panels. */
  lemma {:induction false} GroupsPartition(steps: seq<History.BuildStepResult>)
    ensures |Group(steps, Configure)| + |Group(steps, Build)| + |Group(steps, Install)| + |Group(steps, Other)| == |steps|
  {
    if |steps| > 0 {
      GroupsPartition(steps[1..]);
    }
  }

  /** The fixed panel order. */
  const STEP_ORDER: seq<StepType> := [Configure, Build, Install, Other]

  function Rank(t: StepType): (i: nat)
    ensures i < |STEP_ORDER| && STEP_ORDER[i] == t
  {
    match t
    case Configure => 0
    case Build => 1
    case Install => 2
    case Other => 3
  }

  predicate Present(steps: seq<History.BuildStepResult>, t: StepType)
  {
    |Group(steps, t)| > 0
  }

  /** The panels shown, in the fixed order, each only when it has a step. */
  function GroupOrder(steps: seq<History.BuildStepResult>): (r: seq<StepType>)
  {
    (if Present(steps, Configure) then [Configure] else [])
    + (if Present(steps, Build) then [Build] else [])
    + (if Present(steps, Install) then [Install] else [])
    + (if Present(steps, Other) then [Other] else [])
  }

  /** A panel is shown exactly when some recorded step is of its kind, and
      the panels follow the fixed order with none repeated. */
  lemma GroupOrderShape(steps: seq<History.BuildStepResult>)
    ensures forall t :: t in GroupOrder(steps) <==> exists s :: s in steps && ExtractStepType(s.description) == t
    ensures forall i, j :: 0 <= i < j < |GroupOrder(steps)| ==> Rank(GroupOrder(steps)[i]) < Rank(GroupOrder(steps)[j])
  {
    forall t
      ensures t in GroupOrder(steps) <==> exists s :: s in steps && ExtractStepType(s.description) == t
    {
      var g := Group(steps, t);
      if |g| > 0 {
        assert g[0] in g;
      }
    }
    GroupOrderRanked(steps);
  }

  lemma GroupOrderRanked(steps: seq<History.BuildStepResult>)
    ensures forall i, j :: 0 <= i < j < |GroupOrder(steps)| ==> Rank(GroupOrder(steps)[i]) < Rank(GroupOrder(steps)[j])
  {
    var a, b, c, d := Present(steps, Configure), Present(steps, Build), Present(steps, Install), Present(steps, Other);
    var r := GroupOrder(steps);
    assert r == (if a then [Configure] else []) + (if b then [Build] else []) + (if c then [Install] else []) + (if d then [Other] else []);
  }
}
