/**
 * The CMake argv builders and the step wrappers that give each argv a
 * human-readable description.
 */
module Commands {
  import opened Common

  /** One step of a build: a description and the argv to spawn. */
  datatype BuildStep = BuildStep(description: string, commands: seq<string>)

  /** The preset and the Ninja switch every configure call uses. */
  datatype CMakeCommands = CMakeCommands(preset: string, ninja: bool)

  const PRESET_FLAG: string := "--preset="
  const PREFIX_FLAG: string := "-DCMAKE_PREFIX_PATH="
  const NINJA_FLAG: string := "-GNinja"

  /** `configure_with_prefix`: the six fixed words, then `-GNinja` when Ninja
      is on, then the prefix definition when a prefix is given. */
  function Configure(c: CMakeCommands, sourceDir: string, buildDir: string, prefix: Option<string>): (argv: seq<string>)
    ensures |argv| == 6 + (if c.ninja then 1 else 0) + (if prefix.Some? then 1 else 0)
    ensures argv[0] == "cmake" && argv[3] == sourceDir && argv[5] == buildDir
  {
    var base := ["cmake", PRESET_FLAG + c.preset, "-S", sourceDir, "-B", buildDir];
    var withNinja := if c.ninja then base + [NINJA_FLAG] else base;
    if prefix.Some? then withNinja + [PREFIX_FLAG + prefix.value] else withNinja
  }

  /** What a configure argv says, read back from its words. */
  datatype ConfigureArgs = ConfigureArgs(preset: string, sourceDir: string, buildDir: string, ninja: bool, prefix: Option<string>)

  /** Reads a configure argv back: fixed words in their places, and a tail of
      at most `-GNinja` followed by at most one prefix definition. */
  function ParseConfigure(argv: seq<string>): (r: Option<ConfigureArgs>)
  {
    if |argv| < 6 || argv[0] != "cmake" || argv[2] != "-S" || argv[4] != "-B" then None
    else
      match StripPrefix(argv[1], PRESET_FLAG)
      case None => None
      case Some(preset) =>
        var tail := argv[6..];
        var ninja := |tail| > 0 && tail[0] == NINJA_FLAG;
        var rest := if ninja then tail[1..] else tail;
        if |rest| == 0 then Some(ConfigureArgs(preset, argv[3], argv[5], ninja, None))
        else if |rest| == 1 then
          match StripPrefix(rest[0], PREFIX_FLAG)
          case None => None
          case Some(p) => Some(ConfigureArgs(preset, argv[3], argv[5], ninja, Some(p)))
        else None
  }

  /** The configure argv loses nothing: the preset, both directories, the
      Ninja switch and the prefix can all be read back from it. */
  lemma ConfigureRoundTrip(c: CMakeCommands, sourceDir: string, buildDir: string, prefix: Option<string>)
    ensures ParseConfigure(Configure(c, sourceDir, buildDir, prefix))
         == Some(ConfigureArgs(c.preset, sourceDir, buildDir, c.ninja, prefix))
  {
    var argv := Configure(c, sourceDir, buildDir, prefix);
    assert StripPrefix(argv[1], PRESET_FLAG) == Some(c.preset) by {
      assert argv[1] == PRESET_FLAG + c.preset;
      assert (PRESET_FLAG + c.preset)[|PRESET_FLAG|..] == c.preset;
    }
    var tail := argv[6..];
    if c.ninja {
      assert tail[0] == NINJA_FLAG;
    } else if prefix.Some? {
      assert tail[0] == PREFIX_FLAG + prefix.value;
      assert tail[0][1] == 'D';
    }
    if prefix.Some? {
      var last := PREFIX_FLAG + prefix.value;
      assert argv[|argv| - 1] == last;
      assert last[|PREFIX_FLAG|..] == prefix.value;
    }
  }

  /** `build`. */
  function Build(buildDir: string): (argv: seq<string>)
    ensures |argv| == 4 && argv[0] == "cmake" && argv[2] == buildDir
  {
    ["cmake", "--build", buildDir, "--parallel"]
  }

  /** `build_target`. */
  function BuildTarget(buildDir: string, target: string): (argv: seq<string>)
    ensures |argv| == 6 && argv[0] == "cmake" && argv[2] == buildDir && argv[4] == target
  {
    ["cmake", "--build", buildDir, "--target", target, "--parallel"]
  }

  /** A targeted build is the plain build with `--target <t>` inserted just
      before `--parallel`. */
  lemma BuildTargetInsertsTarget(buildDir: string, target: string)
    ensures BuildTarget(buildDir, target) == Build(buildDir)[..3] + ["--target", target] + Build(buildDir)[3..]
  {
  }

  /** `install`. */
  function Install(buildDir: string, installDir: string): (argv: seq<string>)
    ensures |argv| == 5 && argv[0] == "cmake" && argv[2] == buildDir && argv[4] == installDir
  {
    ["cmake", "--install", buildDir, "--prefix", installDir]
  }

  /** `clean`: `rm -rf` followed by the paths, in order. */
  function Clean(paths: seq<string>): (argv: seq<string>)
    ensures |argv| == 2 + |paths|
    ensures argv[..2] == ["rm", "-rf"] && argv[2..] == paths
  {
    ["rm", "-rf"] + paths
  }

  function ConfigureStep(c: CMakeCommands, name: string, sourceDir: string, buildDir: string): (step: BuildStep)
    ensures StripPrefix(step.description, "Configuring ") == Some(name)
    ensures step.commands == Configure(c, sourceDir, buildDir, None)
  {
    var d := "Configuring " + name;
    assert d[|"Configuring "|..] == name;
    BuildStep(d, Configure(c, sourceDir, buildDir, None))
  }

  function ConfigureStepWithPrefix(c: CMakeCommands, name: string, sourceDir: string, buildDir: string, prefix: Option<string>): (step: BuildStep)
    ensures StripPrefix(step.description, "Configuring ") == Some(name)
    ensures step.commands == Configure(c, sourceDir, buildDir, prefix)
  {
    var d := "Configuring " + name;
    assert d[|"Configuring "|..] == name;
    BuildStep(d, Configure(c, sourceDir, buildDir, prefix))
  }

  function BuildStepFor(name: string, buildDir: string): (step: BuildStep)
    ensures StripPrefix(step.description, "Building ") == Some(name)
    ensures step.commands == Build(buildDir)
  {
    var d := "Building " + name;
    assert d[|"Building "|..] == name;
    BuildStep(d, Build(buildDir))
  }

  function BuildTargetStep(name: string, buildDir: string, target: string): (step: BuildStep)
    ensures StripPrefix(step.description, "Building ") == Some(name)
    ensures step.commands == BuildTarget(buildDir, target)
  {
    var d := "Building " + name;
    assert d[|"Building "|..] == name;
    BuildStep(d, BuildTarget(buildDir, target))
  }

  function InstallStep(name: string, buildDir: string, installDir: string): (step: BuildStep)
    ensures StripPrefix(step.description, "Installing ") == Some(name)
    ensures step.commands == Install(buildDir, installDir)
  {
    var d := "Installing " + name;
    assert d[|"Installing "|..] == name;
    BuildStep(d, Install(buildDir, installDir))
  }

  function CleanStep(name: string, paths: seq<string>): (step: BuildStep)
    ensures StripPrefix(step.description, "Cleaning ") == Some(name)
    ensures step.commands == Clean(paths)
  {
    var d := "Cleaning " + name;
    assert d[|"Cleaning "|..] == name;
    BuildStep(d, Clean(paths))
  }

  /** Every argv the builders produce has a program name in position 0, so
      spawning it can index `command[0]`. */
  predicate Spawnable(step: BuildStep)
  {
    |step.commands| > 0 && |step.commands[0]| > 0
  }

  lemma StepsSpawnable(c: CMakeCommands, name: string, a: string, b: string, prefix: Option<string>, paths: seq<string>)
    ensures Spawnable(ConfigureStepWithPrefix(c, name, a, b, prefix))
    ensures Spawnable(BuildStepFor(name, a)) && Spawnable(BuildTargetStep(name, a, b))
    ensures Spawnable(InstallStep(name, a, b)) && Spawnable(CleanStep(name, paths))
  {
  }
}
