# ignis build engine — a Dafny model

ignis is a terminal tool that drives CMake projects through fixed build
stages: pre-validation, configure, build, install, post-build, test, exec
and clean. The stages depend on each other through a small graph. The tool
sorts that graph into layers, turns each stage into a list of build steps
(a description and an argv), runs the steps as child processes, and streams
the output to a terminal interface as log entries and runtime metrics.

This project models the engine's logic as pure Dafny functions over
immutable datatypes and proves properties about it:

- `Stages`: the stage enum, its metadata and its default dependencies.
- `DependencyGraph`: the graph and its Kahn-style layering. On success the
  layers are exactly the stages grouped by longest incoming path. Failure
  happens exactly when some stages lie on, or after, a cycle, and the error
  names exactly those stages.
- `Commands`, `Builders` and `StageContexts`: how targets become ordered
  steps and CMake argvs.
- `StageRunners`: the runner as a state transformer over its result and
  status maps. It covers fail-fast skipping, the Exec special case and the
  sequential stop in the middle of a layer.
- `Executor` and `Metrics`: the step loop, exit-code and signal
  classification, the update and log trace, metric classification and the
  bounded metric history.
- `Parser`: the metric-line parser and the compiler-output entry counter.
- `Entries`, `Filters` and `History`: log entries, log filters and the
  in-memory build and execution histories.
- `Tabs`, `Actions`, `Keybindings`, `Input`, `Vim`, `WarningLocations` and
  `PerformanceTab`: the interface's key handling, its command line, its tab
  order, the warning-location reader and the step classifier of the
  performance tab.

A running child process is replaced by an outcome value. The outcome is
either the point at which running it failed, or a completion with an
optional pid, the exit status (an exit code or a signal) and the stdout and
stderr lines. Channel sends are returned as ordinary sequences of updates
and log entries. The iteration order of Rust's hash maps and hash sets is an
explicit input wherever it can show.

## Model

| member | source | states |
|---|---|---|
| Stages.MetadataFlags | core/src/stage.rs:23-66 | a stage may run concurrently exactly when it is Install, PostBuild or Test, and is optional exactly when it is PreValidation, PostBuild or Test; Build is neither and is described "Building project" |
| Stages.AllIsEnumeration | core/src/stage.rs:81-92 | `all()` has eight entries, none repeated, and every variant is among them |
| Stages.NameInjective | core/src/stage.rs:95-109 | the printed names are non-empty and no two stages print alike |
| Stages.DependenciesDescend | core/src/stage.rs:68-79 | every default dependency of a stage has a strictly smaller depth, so no stage lists itself |
| Stages.DependencyPathDepth | core/src/stage.rs:68-79 | along a chain of default-dependency edges the depth grows by at least one per edge |
| Stages.DefaultDependenciesAcyclic | core/src/stage.rs:68-79 | no chain of two or more default-dependency edges returns to the stage it started from |
| Tabs.FromIndex | core/src/tui/tabs/mod.rs:27-36 | there is a tab for an index exactly when the index is below five |
| Tabs.Index | core/src/tui/tabs/mod.rs:17-40 | a tab's index is below five, and `from_index` maps it back to that tab |
| Tabs.IndexFromIndex | core/src/tui/tabs/mod.rs:27-40 | for an index below five, the index of the tab it names is that index |
| Tabs.Next | core/src/tui/tabs/mod.rs:42-45 | the next tab's index is the current index plus one, modulo five, so the unwrap never fails |
| Tabs.Prev | core/src/tui/tabs/mod.rs:47-50 | the previous tab's index is one less, and the first tab wraps to index four |
| Tabs.IndexInjective | core/src/tui/tabs/mod.rs:17-24 | two tabs with the same index are the same tab |
| Tabs.NextPrevInverse | core/src/tui/tabs/mod.rs:42-50 | `prev` undoes `next`, and `next` undoes `prev` |
| Tabs.NextTable | core/src/tui/tabs/mod.rs:42-45 | `next` goes Console, Summary, Performance, Warnings, History and back to Console |
| Tabs.NextCycle | core/src/tui/tabs/mod.rs:42-45 | five steps of `next` return to the start, and one to four steps never do |
| Entries.LevelOrderTotal | core/src/parser/entry.rs:4-11 | the derived level order is reflexive, antisymmetric, transitive and total, with Debug < Info < Warning < Error < Fatal |
| Entries.LevelName | core/src/parser/entry.rs:14-22 | every level has a non-empty name made of upper-case letters; `Entries.LevelNameRoundTrip` reads each name back to its level |
| Entries.LevelNameRoundTrip | core/src/parser/entry.rs:14-22 | each level's name reads back as that level, so the five names are distinct |
| Entries.NewEntry | core/src/parser/entry.rs:49-68 | a new entry has no file, line, column or tags, and takes its level, message, raw line, component and index from the arguments |
| Entries.WithLocation | core/src/parser/entry.rs:70-80 | sets the file to the given path and the line and column to the given values, and changes no other field |
| Entries.WithTags | core/src/parser/entry.rs:82-85 | replaces the tags and changes no other field |
| Entries.LocationString | core/src/parser/entry.rs:87-100 | there is a location string exactly when there is a file; it starts with the path, and it is the path alone when there is no line |
| Entries.LocationStringFields | core/src/parser/entry.rs:87-100 | for a path without ':', splitting the location string on ':' gives back the path, then the line, then the column only when there is a line; the line and column parse back to their values |
| Commands.Configure | core/src/command.rs:78-102 | the configure argv has six words, plus one for Ninja and one for a prefix; it starts with "cmake" and has the source directory after "-S" and the build directory after "-B" |
| Commands.ConfigureRoundTrip | core/src/command.rs:78-102 | the preset, both directories, the Ninja switch and the prefix can all be read back from the configure argv, so it loses nothing |
| Commands.Build | core/src/command.rs:103-110 | the build argv has four words: it runs "cmake" with the build directory third |
| Commands.BuildTarget | core/src/command.rs:112-121 | the targeted build argv has six words: "cmake", with the build directory third and the target fifth |
| Commands.Install | core/src/command.rs:123-131 | the install argv has five words: "cmake", with the build directory third and the install directory last |
| Commands.BuildTargetInsertsTarget | core/src/command.rs:104-122 | the targeted build argv is the plain build argv with "--target" and the target inserted just before "--parallel" |
| Commands.Clean | core/src/command.rs:134-140 | the clean argv is "rm", "-rf" and then the given paths in order, so its length is two plus the number of paths |
| Commands.ConfigureStep | core/src/command.rs:14-24 | the description is "Configuring " followed by the name, and the argv is the configure argv without a prefix |
| Commands.ConfigureStepWithPrefix | core/src/command.rs:26-37 | the description is "Configuring " followed by the name, and the argv is the configure argv with the given prefix |
| Commands.BuildStepFor | core/src/command.rs:39-41 | the description is "Building " followed by the name, and the argv is the build argv |
| Commands.BuildTargetStep | core/src/command.rs:43-53 | the description is "Building " followed by the name, and the argv is the targeted build argv |
| Commands.InstallStep | core/src/command.rs:55-65 | the description is "Installing " followed by the name, and the argv is the install argv |
| Commands.CleanStep | core/src/command.rs:67-72 | the description is "Cleaning " followed by the name, and the argv is the clean argv |
| Commands.StepsSpawnable | core/src/command.rs:84-139 | every argv the step wrappers produce has a non-empty program name at position 0 |
| Builders.PathJoinShape | core/src/builder.rs:154-162 | the joined path ends with the component; an absolute component replaces the base; a relative one keeps the base as a prefix, with exactly one '/' between them when the base is non-empty and does not end in '/' |
| Builders.NewBuilder | core/src/builder.rs:51-59 | a new builder has no targets, keeps the given root and preset, and has Ninja switched on |
| Builders.WithNinja | core/src/builder.rs:61-64 | the commands are rebuilt with the builder's own preset and the given Ninja switch; preset, root and targets are unchanged |
| Builders.WithTargets | core/src/builder.rs:66-69 | replaces the targets and changes nothing else |
| Builders.GetDirs | core/src/builder.rs:160-165 | the build directory is "builds" then the preset under the given target path; the install directory is "install" under the root, whatever the target |
| Builders.GetRootDirs | core/src/builder.rs:153-158 | the root directories are what `get_dirs` gives for the root's path and the builder's preset |
| Builders.InstallDirSharedByTargets | core/src/builder.rs:153-165 | the install directory is the same for every target and equals the root's; the build directory ends with the preset |
| Builders.TargetName | core/src/builder.rs:103 | a target is named by its `build.name`, or "project" when there is none |
| Builders.RenderStep | core/src/builder.rs:98-111 | a configure step is always described with the name "CMake" and an install step with "artifacts"; only the build step carries the target's name; every step uses the target's build directory |
| Builders.RenderedKind | core/src/builder.rs:98-111 | a rendered step starts with "Configuring ", "Building " or "Installing " exactly when it is of that kind |
| Builders.TargetPlan | core/src/builder.rs:98-114 | a target contributes two steps, or three when it is an Installer |
| Builders.Render | core/src/builder.rs:87-119 | the rendered steps correspond one to one, in order, to the planned ones |
| Builders.PlanUpToAt | core/src/builder.rs:87-116 | step j of target k's block sits at offset 2k + (installers before k) + j, and later blocks leave it in place |
| Builders.GenerateBuildAll | core/src/builder.rs:87-116 | the loop produces the blocks of all targets in order, 2n + (number of installers) steps in all |
| Builders.PlanShape | core/src/builder.rs:87-116 | target k's block is a configure step, then a build step, then an install step exactly when the target is an Installer |
| Builders.BuildAllShape | core/src/builder.rs:87-116 | in the generated list, target k's block is its configure step, then its build step, then a step starting "Installing " exactly when it is an Installer; the list has 2n + (number of installers) steps |
| Builders.GenerateBuildTargetSteps | core/src/builder.rs:167-180 | exactly three steps: configure without a prefix; the plain build with "--target" and the executable's name inserted before "--parallel"; install; each can be spawned |
| Builders.GenerateCleanTargetCommand | core/src/builder.rs:182-185 | the targeted build argv whose target is "clean" |
| Builders.GenerateCleanAll | core/src/builder.rs:187-205 | one step per target, in order; each is described "Cleaning " and the target's name, and runs `rm -rf` on the target's build directory and the shared install directory |
| Builders.GenerateCleanCommand | core/src/builder.rs:207-209 | `rm -rf` of the build directory then the install directory |
| Builders.DetectAvailablePresets | core/src/builder.rs:226-228 | "debug" and "release", whatever the directory |
| StageContexts.NewContext | core/src/stage_context.rs:45-56 | a new context keeps the builder and has no executable information |
| StageContexts.WithExecutable | core/src/stage_context.rs:58-61 | sets the executable information and keeps the builder |
| StageContexts.StagePlanEveryTarget | core/src/stage_context.rs:98-132 | the configure and build plans hold one step per target, in target order |
| StageContexts.StagePlanInstallers | core/src/stage_context.rs:134-152 | the install plan holds one step per Installer target, and only steps for Installer targets |
| StageContexts.GenerateStepsForStage | core/src/stage_context.rs:79-164 | PreValidation, PostBuild, Test and Exec yield no steps; Clean yields exactly the builder's clean-all list |
| StageContexts.StageStepShapes | core/src/stage_context.rs:98-152 | Configure yields, per target in order, a configure step named "CMake" over the target's build directory; Build yields, per target, a build step with the target's name; Install yields one step starting "Installing " per Installer target |
| StageContexts.BuildAllInterleavesStages | core/src/stage_context.rs:98-152 | picking the steps of one kind out of the `generate_build_all` plan, in order, gives exactly that stage's plan |
| StageContexts.BuildAllMatchesStageSteps | core/src/stage_context.rs:98-152 | the configure, build and install steps of `generate_build_all`, in order, are exactly what the Configure, Build and Install stages generate |
| DependencyGraph.New | core/src/dependency_graph.rs:39-45 | a new graph has no stages and is well formed: the three containers share their keys and every in-degree counts the edges into its stage |
| DependencyGraph.AddStage | core/src/dependency_graph.rs:65-69 | registers the stage in all three containers; an existing adjacency list and in-degree are kept, a new stage gets none and 0; no other stage changes |
| DependencyGraph.AddStagePreservesValid | core/src/dependency_graph.rs:65-69 | `add_stage` keeps a graph well formed, and on a stage already registered it changes nothing |
| DependencyGraph.AddDependency | core/src/dependency_graph.rs:71-78 | registers both ends, appends `to` to the dependents of `from` (a repeated edge is kept twice), raises the in-degree of `to` by exactly one, and changes no other list or degree |
| DependencyGraph.AddDependencyPreservesValid | core/src/dependency_graph.rs:71-78 | after `add_dependency` every in-degree still equals the number of edges into its stage |
| DependencyGraph.PendingPositive | core/src/dependency_graph.rs:101-110 | a stage still has edges from unfinished stages exactly when some unfinished stage lists it as a dependent |
| DependencyGraph.AddStages | core/src/dependency_graph.rs:50-52 | registering a list of stages adds exactly those stages and no edge |
| DependencyGraph.AddEdgesInto | core/src/dependency_graph.rs:55-59 | for one stage, the edge dep -> stage is added for a default dependency exactly when that dependency is requested; no stage is added |
| DependencyGraph.AddDefaultEdges | core/src/dependency_graph.rs:54-60 | for every stage in turn, the edges from its requested default dependencies are added, and nothing else |
| DependencyGraph.FromStages | core/src/dependency_graph.rs:47-63 | the graph is well formed, holds exactly the requested stages, and has an edge u -> v exactly when both are requested and u is a default dependency of v |
| DependencyGraph.GetDependencies | core/src/dependency_graph.rs:135-145 | the result lists exactly the stages whose dependents include the given stage, in adjacency-map order, each once |
| DependencyGraph.DependenciesMatchInDegree | core/src/dependency_graph.rs:135-145 | for a registered stage, `get_dependencies` is non-empty exactly when its in-degree is positive |
| DependencyGraph.Release | core/src/dependency_graph.rs:101-110 | processing one stage's dependents lowers each registered dependent's degree by the number of times it is listed, without ever going below zero |
| DependencyGraph.ReleaseQueue | core/src/dependency_graph.rs:101-110 | a dependent joins the queue exactly when this step brings its degree to zero, and joins at most once |
| DependencyGraph.ProcessLayer | core/src/dependency_graph.rs:96-112 | processing a whole layer lowers every degree by the number of edges into it from the layer |
| DependencyGraph.ProcessLayerQueue | core/src/dependency_graph.rs:96-112 | the stages queued for the next layer are exactly those whose degree this layer brought to zero, each once |
| DependencyGraph.PendingAfterLayer | core/src/dependency_graph.rs:96-112 | finishing a layer removes exactly the layer's edges from every stage's count of edges from unfinished stages |
| DependencyGraph.Drain | core/src/dependency_graph.rs:92-117 | the main loop yields non-empty layers with no stage repeated, starting with the first queue; they hold exactly the unfinished stages whose degree ends at zero; `processed` counts them; each residual degree counts the edges from stages never released |
| DependencyGraph.DrainProgress | core/src/dependency_graph.rs:92-117 | each round finishes at least one new stage, so the loop ends |
| DependencyGraph.DrainStep | core/src/dependency_graph.rs:92-112 | one round keeps the loop invariant, and every stage it queues is a dependent of a stage of the layer just processed |
| DependencyGraph.DrainEdgesForward | core/src/dependency_graph.rs:92-117 | every edge between two layers goes from an earlier layer to a strictly later one |
| DependencyGraph.DrainPredecessors | core/src/dependency_graph.rs:92-117 | every stage after the first layer has a predecessor in the layer just before, so it sits in the earliest layer its edges allow |
| DependencyGraph.InitialQueue | core/src/dependency_graph.rs:86-90 | the first queue holds exactly the stages of in-degree zero, each once |
| DependencyGraph.Stranded | core/src/dependency_graph.rs:119-125 | the error payload holds exactly the stages whose residual degree is positive, each once |
| DependencyGraph.RunLayered | core/src/dependency_graph.rs:80-117 | the layers are non-empty and repeat no stage; the first is exactly the stages of in-degree zero; edges point forward; each stage is in the earliest layer possible |
| DependencyGraph.RunReleased | core/src/dependency_graph.rs:80-119 | a stage is in some layer exactly when its residual degree is zero, and `processed` equals the number of stages exactly when every stage was released |
| DependencyGraph.RunDegrees | core/src/dependency_graph.rs:80-117 | a stage's residual degree is the number of its edges from stages never released |
| DependencyGraph.TopologicalSort | core/src/dependency_graph.rs:80-129 | on success the layers have the layered shape and cover every stage; on failure the error is `CircularDependency`, its payload is a stranded set, and the layers released before it cover every other stage |
| DependencyGraph.StrandedPayload | core/src/dependency_graph.rs:119-126 | when fewer stages were processed than registered, the payload is non-empty, lists each stage once, gives every member an edge from another member and holds every dependent of its members; the released stages are all the rest |
| DependencyGraph.StrandedClosed | core/src/dependency_graph.rs:101-125 | a dependent of a stranded stage is stranded too |
| DependencyGraph.LayeringHasNoClosedWalk | core/src/dependency_graph.rs:80-129 | a graph whose stages can all be layered has no closed walk |
| DependencyGraph.StrandedSetHasClosedWalk | core/src/dependency_graph.rs:119-126 | a stranded set contains a closed walk |
| DependencyGraph.SortFailsIffCycle | core/src/dependency_graph.rs:80-129 | sorting fails exactly when the graph has a closed walk, a self-loop included |
| DependencyGraph.DefaultEdgesAcyclic | core/src/dependency_graph.rs:47-63 | a graph whose every edge is a default dependency has no closed walk |
| DependencyGraph.FromStagesAcyclic | core/src/dependency_graph.rs:47-63 | a graph built by `from_stages` has no closed walk |
| DependencyGraph.FromStagesSorts | core/src/dependency_graph.rs:47-63 | a graph built by `from_stages` always sorts |
| DependencyGraph.EmptyGraphSorts | core/src/dependency_graph.rs:80-129 | an empty graph sorts to no layers |
| DependencyGraph.SingleLayer | core/src/dependency_graph.rs:80-129 | the only layering of a single stage is one layer holding it |
| DependencyGraph.SingleStageSorts | core/src/dependency_graph.rs:215-226 | one stage with no edge sorts to one layer holding it |
| DependencyGraph.DrainRounds | core/src/dependency_graph.rs:92-117 | whatever order the queue holds, the k-th layer holds the same set as the k-th round of ready stages, defined without any queue |
| DependencyGraph.RunRounds | core/src/dependency_graph.rs:80-117 | a run yields the rounds of ready stages, one per layer, and releases exactly the stages that settle |
| DependencyGraph.RunResidual | core/src/dependency_graph.rs:80-119 | the residual degrees and the processed count depend only on the graph |
| DependencyGraph.RunOrderIrrelevant | core/src/dependency_graph.rs:86-117 | two runs that start from different hash-map iteration orders give layers with the same sets in the same order, the same residual degrees and the same count |
| DependencyGraph.SortRounds | core/src/dependency_graph.rs:80-129 | sorting succeeds exactly when every stage settles; its layers are then the rounds of ready stages; a failure's payload is exactly the stages that never settle |
| DependencyGraph.SortOrderIrrelevant | core/src/dependency_graph.rs:80-129 | sorting again, under any iteration order, gives the same outcome: the same layer sets in the same order, or a payload with the same stages |
| StageRunners.NewRunner | core/src/stage_runner.rs:50-56 | a new runner has no result and no status for any stage |
| StageRunners.Clear | core/src/stage_runner.rs:343-348 | after `clear` no stage has a status or a result |
| StageRunners.GetStatus | core/src/stage_runner.rs:333-336 | there is a status exactly when the stage has one in the map, and it is that one |
| StageRunners.GetResult | core/src/stage_runner.rs:338-341 | there is a result exactly when the stage has one in the map, and it is that one |
| StageRunners.StatusOf | core/src/stage_runner.rs:216-228 | the status stored beside a result is Completed for Success, Failed for Failed and Skipped for Skipped, and nothing else |
| StageRunners.FirstFailed | core/src/stage_runner.rs:203-207 | the index found is that of the first failed result: every result before it succeeded, and the one there failed unless all did |
| StageRunners.Summarise | core/src/stage_runner.rs:193-214 | the summary counts the results; it is Success exactly when every result succeeded; otherwise its error is the first failing result's reason, or "Stage execution failed" when that result has none |
| StageRunners.GeneratedStepsSpawnable | core/src/stage_runner.rs:183-191 | every step a stage generates has a program to spawn |
| StageRunners.ExecuteStage | core/src/stage_runner.rs:92-231 | the status goes to Running first; on return the result and a matching status are stored for the stage and nothing else changes; when the run itself errs only the Running status remains |
| StageRunners.ExecStage | core/src/stage_runner.rs:104-160 | without executable information Exec fails with "Exec stage requires executable info", zero duration and zero steps; with it, the result counts one step, succeeds exactly when the program did, falls back to "Execution failed", and errs exactly when the run does; the builder and step generator play no part |
| StageRunners.StepStage | core/src/stage_runner.rs:162-214 | a stage other than Exec with no steps is Skipped with "No steps to execute"; otherwise its steps can be spawned, and the result counts the step results, succeeds exactly when all did, and carries the first failure's reason |
| StageRunners.StepFreeStagesSkipped | core/src/stage_runner.rs:162-177 | PreValidation, PostBuild and Test are always Skipped, never Success, and get the Skipped status |
| StageRunners.SkipLayer | core/src/stage_runner.rs:292-303 | every stage of the layer is stored as Skipped with "Previous stage failed", with the Skipped status, in the runner and in the call's results |
| StageRunners.SkipRecorded | core/src/stage_runner.rs:292-303 | skipping keeps the call's results and the runner's maps in step |
| StageRunners.SequentialStops | core/src/stage_runner.rs:313-326 | a sequential layer runs a prefix of its stages; of the stages run only the last can be reported Failed, and the layer falls short only after a Failed one, so it stops at the first failure; the stages after it get no entry, earlier entries of other stages are kept, and what it reports is what the runner recorded |
| StageRunners.SequentialFirstFailure | core/src/stage_runner.rs:313-326 | for a layer without repeated stages, as the sort yields: every stage before the last one run is reported not Failed, and the run falls short of the layer only just after a Failed stage |
| StageRunners.TasksCollected | core/src/stage_runner.rs:233-268 | a concurrent layer reports every one of its stages, as the runner recorded each, unless a task errs; the error reported is the first in layer order |
| StageRunners.LayerRecorded | core/src/stage_runner.rs:306-327 | a layer adds only its own stages; a concurrent layer adds all of them, a sequential one a prefix in which only the last stage run can be Failed, cut short only after a Failed stage; every stage reported is as the runner recorded it |
| StageRunners.LayersRecorded | core/src/stage_runner.rs:284-330 | the walk over the layers reports only stages of the layers, each as the runner recorded it |
| StageRunners.FailureSkipsLayers | core/src/stage_runner.rs:284-304 | while the runner holds a Failed result, every remaining layer is skipped whole: each stage gets "Previous stage failed" and the Skipped status, and nothing runs |
| StageRunners.FailureSkipsLaterLayers | core/src/stage_runner.rs:284-330 | once a layer leaves a Failed result, every stage of every later layer is reported Skipped with "Previous stage failed" |
| StageRunners.RunSorted | core/src/stage_runner.rs:275-284 | a sort failure aborts with "Failed to resolve stage dependencies" before any stage runs and with the runner untouched; otherwise the layers are walked, each stage with a fresh context that carries no executable |
| StageRunners.DependenciesRecorded | core/src/stage_runner.rs:270-331 | the sort of the requested stages always succeeds, and every stage reported is requested and reported as the runner recorded it |
| StageRunners.ExecuteWithDependencies | core/src/stage_runner.rs:270-331 | sorts the requested stages and walks their layers; its contract is carried by `StageRunners.RunSorted` and `StageRunners.DependenciesRecorded` (every stage reported is requested and reported as the runner recorded it) |
| StageRunners.RunLayers | core/src/stage_runner.rs:284-330 | the walk over the layers; its contract is carried by `StageRunners.LayersRecorded` (only the layers' stages, as recorded) and `StageRunners.FailureSkipsLayers` (a held failure skips every remaining layer whole) |
| StageRunners.RunLayer | core/src/stage_runner.rs:306-327 | one layer, concurrent or sequential; its contract is carried by `StageRunners.LayerRecorded` (only the layer's own stages, all of a concurrent layer, a prefix of a sequential one in which only the last stage run can be Failed and which falls short only after a Failed stage) |
| StageRunners.RunTasks | core/src/stage_runner.rs:233-268 | the concurrent layer's tasks; its contract is carried by `StageRunners.TasksCollected` (every stage reported as recorded unless a task errs, the first error in layer order) |
| StageRunners.RunSequential | core/src/stage_runner.rs:313-326 | the sequential layer; its contract is carried by `StageRunners.SequentialStops` (a prefix in which only the last stage run can be Failed, cut short only after a Failed stage) and `StageRunners.SequentialFirstFailure` (with no repeated stages, every stage before the last one run is not Failed) |
| StageRunners.SortedRecorded | core/src/stage_runner.rs:284-331 | walking sorted layers reports only their stages, each as the runner recorded it |
| StageRunners.StaleFailureSkipsAll | core/src/stage_runner.rs:284-304 | a Failed result left from an earlier call that was not cleared skips every requested stage when the failed stage is not requested again |
| StageRunners.SortedSkipped | core/src/stage_runner.rs:284-304 | with such a stale failure, every stage of the layers is reported Skipped and gets the Skipped status |
| StageRunners.ExecViaDependenciesFails | core/src/stage_runner.rs:314-320 | Exec run through the dependency walk always fails for want of an executable, whatever context the caller passed |
| StageRunners.ExecFailureStopsLayer | core/src/stage_runner.rs:306-326 | a layer holding Exec then Clean runs in order, since Clean may not run concurrently; Exec fails and Clean gets no result |
| Executor.StatusCode | core/src/executor.rs:276 | an exit status has a code exactly when the child exited, not when a signal ended it |
| Executor.ExitCodeReason | core/src/executor.rs:277-279 | the failure reason for a code is "Exit code " followed by the code's decimal text |
| Executor.ExitCodeReasonRoundTrip | core/src/executor.rs:277-279 | the exit code parses back out of its failure reason, negative codes included |
| Executor.ExecuteStep | core/src/executor.rs:197-291 | a fault at any point is an error carrying that point's message; otherwise success is the exit status's, stdout and stderr are returned, a nonzero code gives "Exit code N" and a signal no reason; ProcessStarted precedes ProcessFinished and both need a pid and a step channel |
| Executor.StepUpdates | core/src/executor.rs:303-313 | every executed step first announces itself with Started and its description |
| Executor.RunStepsShape | core/src/executor.rs:293-324 | steps run in order; all results but the last succeeded, and a shorter list ends in a failure; the updates are exactly those of the steps run; a fault ends the whole call with that step's error |
| Executor.StepsFromShape | core/src/executor.rs:303-321 | from any step reached with all earlier steps successful, the remaining loop keeps the same promise |
| Executor.MetricLines | core/src/executor.rs:356-363 | every line kept as a metric line is one the metric parser as written accepts |
| Executor.PlainLines | core/src/executor.rs:356-375 | every line kept as output is one the metric parser as written rejects |
| Executor.ExecuteSteps | core/src/executor.rs:293-324 | the loop computes the step-by-step run, returns no more results than steps, and an error names the faulting step |
| Executor.StdoutPartition | core/src/executor.rs:356-378 | every stdout line becomes either a metric update or a log entry, never both and never neither |
| Executor.StdoutEntries | core/src/executor.rs:364-375 | one Info entry per output line, in order, with the line as message and raw text, component "exec", numbered from 0 |
| Executor.MetricUpdates | core/src/executor.rs:359-363 | one Metric update per metric line, in order, carrying what the parser as written read from it, so never a visualization |
| Executor.StderrEntries | core/src/executor.rs:380-396 | one Error entry per stderr line, in order, component "exec", numbered from 100000 |
| Executor.ExecuteProgram | core/src/executor.rs:326-510 | faults map to their messages; success is the exit status's; a signal gives "Signal n (name)", a nonzero code "Exit code N"; stdout lines become Info entries from 0 or, through the metric parser as written, Metric updates; stderr lines become Error entries from 100000; ProcessStarted, metrics, one Finished, then ProcessFinished; a fault sends no Finished, and once the reader tasks had started it keeps the stdout and stderr lines they had read as entries, and the stdout ones also as metric updates, while a fault before they started keeps none; a fault never has engine entries |
| Executor.ProgramMetricsUnvisualized | core/src/executor.rs:356-363 | no Metric update of a completed run carries a visualization |
| Executor.ProgramDropsSuffix | core/src/executor.rs:356-363 | a run printing "[IGNIS_METRIC] render:fps=60:gauge" reports the metric fps=60 in category render with no visualization |
| Executor.SignalTable | core/src/executor.rs:415-428 | exactly the ten listed signals have names; the common ones are named as the table says |
| Executor.ProgramFinishesOnce | core/src/executor.rs:499-507 | a completed run sends exactly one Finished, and ends with ProcessFinished exactly when there was a pid |
| Executor.EntryIndicesDistinct | core/src/executor.rs:356-487 | stdout entry numbers lie below stderr ones, which lie below the engine's own 999998 and 999999, while the streams stay short enough |
| Metrics.MetricTypeOf | core/src/executor.rs:49-78 | the type is the first in precedence order whose keyword test the lower-cased key passes; no earlier type's test passes |
| Metrics.PercentageSubsumed | core/src/executor.rs:55-57 | a key containing "percentage" already contains "percent", so that second test never decides |
| Metrics.MetricTypeCaseInsensitive | core/src/executor.rs:50 | classification gives the same type for an ASCII key and its upper-case form |
| Metrics.FpsWins | core/src/executor.rs:52-54 | a key is an FPS metric exactly when its lower-cased form contains "fps", whatever else it contains |
| Metrics.TypeIsFirstPassingRule | core/src/executor.rs:49-78 | a type is the one chosen exactly when its test passes and no test earlier in the precedence order does |
| Metrics.PercentageRule | core/src/executor.rs:55-59 | a key is a percentage exactly when it has no "fps" and contains "percent" or ends in "_pct" |
| Metrics.TimeNeedsMillis | core/src/executor.rs:61-63 | a key is a duration exactly when it contains both "time" and "ms" and passes neither the FPS nor the percentage test |
| Metrics.NoKeywordIsGeneric | core/src/executor.rs:49-78 | a key whose lower-cased form holds none of the keywords is Generic |
| Metrics.DefaultVisualization | core/src/executor.rs:40-46 | without an explicit choice only Sparkline, Gauge and Text occur; Gauge exactly for percentages, Text exactly for dimensions and generic metrics |
| Metrics.VisualizationOf | core/src/executor.rs:35-47 | an explicit visualization wins; otherwise a gauge is chosen exactly for percentage keys |
| Metrics.VisualizationFromStr | core/src/executor.rs:103-115 | a name is accepted exactly when its lower-cased form is one of the seven names, and yields the visualization of that name |
| Metrics.VisualizationNameRoundTrip | core/src/executor.rs:103-115 | every visualization's name, lower or upper case, parses back to it |
| Metrics.NewHistory | core/src/executor.rs:130-145 | a new history is empty with a capacity of 50 and keeps the given category, key, type and visualization |
| Metrics.LatestValue | core/src/executor.rs:156-158 | the latest value is the last one stored, and absent exactly when none is |
| Metrics.AddValue | core/src/executor.rs:147-154 | the new value and instant become the latest; the rest is a suffix of the old values; below capacity the value is simply appended; lengths stay equal and within capacity; no other field changes |
| Metrics.AddValuesWindow | core/src/executor.rs:147-154 | after any sequence of additions the history holds exactly the last max_history values of everything seen |
| Metrics.FreshHistoryKeepsLastFifty | core/src/executor.rs:130-154 | from a new history, the last 50 added values are kept, the newest last |
| Parser.ParseMetricLineAsWritten | core/src/parser/parser.rs:149-181 | a metric needs the exact "[IGNIS_METRIC] " prefix, and as written it never carries a visualization, because the value field has already lost its ':' |
| Parser.ParseMetricLine | core/src/parser/parser.rs:149-181 | the corrected parser accepts exactly the lines the written one accepts and reads the same category, key and value; only the visualization differs |
| Parser.CorrectedViz | core/src/parser/parser.rs:154-168 | the corrected parser takes the visualization from the third ':' field when there is one |
| Parser.MetricLineRoundTripAsWritten | core/src/parser/parser.rs:149-181 | a printed metric line reads back as its category, key and value, with the visualization dropped |
| Parser.MetricLineRoundTrip | core/src/parser/parser.rs:149-181 | the corrected parser reads back category, key, value and the visualization of a printed line |
| Parser.MetricLineParts | core/src/parser/parser.rs:153-154 | a printed line carries the prefix, and its body splits on ':' into two fields, or three with a visualization |
| Parser.VisualizationSuffixIgnored | core/src/parser/parser.rs:154-168 | on "[IGNIS_METRIC] render:fps=60:gauge" the parser as written gives no visualization; the corrected one gives Gauge |
| Parser.NonMetricLine | core/src/parser/parser.rs:149-181 | a line without the prefix is not a metric under either parser |
| Parser.NewCompilerOutputParser | core/src/parser/parser.rs:27-29 | a new parser numbers from 0 |
| Parser.Reset | core/src/parser/parser.rs:131-133 | reset sets the counter back to 0 |
| Parser.ParseLine | core/src/parser/parser.rs:31-130 | each entry carries the current counter and the original raw line, with the level, message and component its line is classified with; the counter moves on by one |
| Parser.ParseLines | core/src/parser/parser.rs:31-34 | parsing several lines gives one entry per line |
| Parser.ParseLinesNumbering | core/src/parser/parser.rs:31-34 | over several lines, entries are numbered consecutively from the counter and each keeps its own line; the counter ends past the last number |
| Parser.ResetRestartsNumbering | core/src/parser/parser.rs:131-133 | after a reset the entries are numbered from 0 again |
| History.NewBuildEntry | core/src/history/mod.rs:31-44 | a new build entry keeps its preset and git details, and starts unsuccessful with no steps, no counts and no note |
| History.AddStep | core/src/history/mod.rs:46-51 | the step is appended and its error and warning counts added; the entry is a success afterwards exactly when it was one and the step succeeded; nothing else changes |
| History.Finalize | core/src/history/mod.rs:53-56 | finalizing sets the duration and makes the entry a success exactly when every recorded step succeeded |
| History.AddStepsFromNew | core/src/history/mod.rs:31-51 | steps added to a new entry are recorded in order with their summed counts, and the entry never becomes a success that way |
| History.AddStepsFields | core/src/history/mod.rs:46-51 | adding steps to any entry appends them and their counts, keeps the preset, and can only keep or clear success |
| History.FinalizedBuild | core/src/history/mod.rs:31-56 | a finalized build is a success exactly when all its steps succeeded, a build without steps included |
| History.BoundedPush | core/src/history/mod.rs:75-81 | pushing keeps a suffix of the list with the new entry, one longer unless the bound is exceeded, then the same length |
| History.BoundedPushLast | core/src/history/mod.rs:75-81 | the pushed entry is last, except with a bound of zero on an empty list, which stays empty |
| History.BoundedPushesWindow | core/src/history/mod.rs:75-81 | a list within its bound, after any number of pushes, holds exactly the last max entries of everything added |
| History.AddBuild | core/src/history/mod.rs:75-83 | adding a build entry keeps the bound and pushes the entry onto the list |
| History.LastOf | core/src/history/mod.rs:89-91 | the last entry of a history is the most recent one, and absent exactly when the history is empty; the execution history's last entry is read the same way |
| History.ClearBuilds | core/src/history/mod.rs:93-96 | after clearing there is no last entry; the bound stays |
| History.AddBuildBounded | core/src/history/mod.rs:75-91 | after adding, the entry is the last one exactly when the history was non-empty or the bound is positive, and a history within its bound stays within it |
| History.NewExecutionEntry | core/src/history/mod.rs:148-162 | a new execution entry keeps its executable name and path, and starts unsuccessful with no exit code, no reason and zero counts |
| History.AddExecution | core/src/history/mod.rs:181-188 | adding an execution keeps the bound and updates the list as a bounded push: the entry goes last and the oldest is dropped past the bound |
| History.ClearExecutions | core/src/history/mod.rs:199-202 | after clearing there is no last execution; the bound stays |
| History.AddExecutionBounded | core/src/history/mod.rs:181-197 | the execution history keeps its bound the same way as the build history |
| Filters.NewPatternFilter | core/src/parser/filters.rs:34-45 | construction succeeds exactly when the expression compiles: as given when case-sensitive, behind "(?i)" otherwise, and the filter keeps that expression and the flag |
| Filters.NewFileFilter | core/src/parser/filters.rs:70-75 | construction succeeds exactly when the file expression compiles |
| Filters.MatchesCases | core/src/parser/filters.rs:19-142 | a level filter passes entries at least as severe as its level; a file filter never passes an entry without a file; a component filter passes exactly its component; an empty all-of passes everything and an empty any-of nothing |
| Filters.LevelFilterBounds | core/src/parser/filters.rs:19-22 | a Debug level filter passes every entry; a Fatal one passes exactly the fatal entries |
| Filters.CompositeRegroup | core/src/parser/filters.rs:136-142 | splitting a composite's members into two composites of the same mode accepts the same entries |
| Filters.CompositeSingleton | core/src/parser/filters.rs:136-142 | a composite of one member accepts what that member accepts, in either mode |
| Filters.CompositeDescription | core/src/parser/filters.rs:144-151 | a composite's description is parenthesised, members separated by " AND " or " OR ": "()" for none, "(a)" for one, "(a AND b)" for two |
| Filters.Matches | core/src/parser/filters.rs:19-142 | each filter kind's acceptance test; its contract is carried by `Filters.MatchesCases` and `Filters.CompositeSingleton` |
| Filters.Description | core/src/parser/filters.rs:144-151 | each filter kind's description; its contract is carried by `Filters.CompositeDescription` and `Filters.LevelDescription` |
| Filters.ComponentDebug | core/src/parser/filters.rs:107-109 | the `{:?}` text of a component in a component filter's description; `Filters.ComponentDebugInjective` states that different components never print alike |
| Filters.ComponentDebugInjective | core/src/parser/filters.rs:107-109 | two component filters have the same description exactly when they filter the same component |
| Filters.LevelDescription | core/src/parser/filters.rs:24-26 | a level filter's description is "level >= " and the level's name, from which the level reads back |
| Keybindings.ByteLength | core/src/tui/keybinding_manager.rs:37 | a string's UTF-8 length is at least its character count, and is 1 exactly for a single ASCII character |
| Keybindings.FromString | core/src/tui/keybinding_manager.rs:31-43 | exactly "Space", "Backslash", "Enter", "Esc" and one-byte strings name a key, always without modifiers; a one-byte string is that character, "Space" the space, "Backslash" the backslash, "Enter" the Enter key and "Esc" the Esc key |
| Keybindings.ToDisplayString | core/src/tui/keybinding_manager.rs:45-54 | a display is never empty; a character other than the space shows as itself, and only those displays are one character long; the space shows as "<Space>", Enter as "<Enter>", Esc as "<Esc>", Backspace as "<Backspace>", and only these four displays are bracketed |
| Keybindings.FunctionKeyDisplay | core/src/tui/keybinding_manager.rs:45-54 | different function keys display differently |
| Keybindings.FromStringOfDisplay | core/src/tui/keybinding_manager.rs:31-54 | a displayed ASCII character other than the space reads back as its key; the bracketed displays of the space, Enter and Esc do not read back |
| Keybindings.NewManager | core/src/tui/keybinding_manager.rs:76-266 | a new manager keeps the leader, timeout and flag, has leader bindings exactly when the leader is enabled, has no leader key while disabled, and installs the default vim sequences and single keys |
| Keybindings.DefaultManager | core/src/tui/keybinding_manager.rs:324-332 | the default manager waits 1000 ms, has leader bindings, and treats the space, and only the space, as the leader key |
| Keybindings.IsLeaderKey | core/src/tui/keybinding_manager.rs:269-271 | a key is the leader only while the leader is enabled; its contract is carried by `Keybindings.NewManager` and `Keybindings.DefaultManager` |
| Keybindings.MatchSequence | core/src/tui/keybinding_manager.rs:273-301 | an empty sequence matches nothing; the leader alone is partial; the leader and a bound key complete its binding, any other second key matches nothing; otherwise a registered sequence completes, a proper prefix of one is partial, and anything else matches nothing |
| Keybindings.MatchSingleKey | core/src/tui/keybinding_manager.rs:303-305 | a single key gives its binding exactly when it has one |
| Keybindings.AddLeaderBinding | core/src/tui/keybinding_manager.rs:311-313 | the key is bound to the action, replacing any previous binding; no other part of the manager changes |
| Keybindings.AddVimSequence | core/src/tui/keybinding_manager.rs:315-317 | the sequence is bound to the action, replacing any previous binding; no other part changes |
| Keybindings.AddSingleKeyBinding | core/src/tui/keybinding_manager.rs:319-321 | the key is bound to the action, replacing any previous binding; no other part changes |
| Keybindings.AddedBindingsMatch | core/src/tui/keybinding_manager.rs:273-321 | an added sequence, leader binding or single key is then matched to its action, provided the sequence does not start with the leader key |
| Keybindings.DefaultLeaderBindings | core/src/tui/keybinding_manager.rs:370-389 | with the default manager the space alone is partial, space then 'f' opens a file, and space then 'x' matches nothing |
| Keybindings.DefaultVimSequences | core/src/tui/keybinding_manager.rs:390-409 | the six default two-key sequences complete to their actions and 'g' alone waits for a second key |
| Keybindings.DefaultQuitKeys | core/src/tui/keybinding_manager.rs:410-420 | 'q' and Ctrl-c are both bound to Quit |
| Keybindings.DefaultSingleKeySequences | core/src/tui/keybinding_manager.rs:273-301 | by default no single key other than the space completes a sequence, and exactly 'g', 'y' and 'z' start one |
| Keybindings.KeysDisplayAppend | core/src/tui/keybinding_manager.rs:357-363 | the display of a sequence is its parts' displays joined without a separator |
| Keybindings.PendingDisplay | core/src/tui/keybinding_manager.rs:357-363 | the pending sequence's display; its contract is carried by `Keybindings.PendingDisplayAddKey`, `Keybindings.KeysDisplayAppend` and `Keybindings.PendingDisplayExample` |
| Keybindings.PendingDisplayAddKey | core/src/tui/keybinding_manager.rs:357-363 | adding a key to a pending sequence extends its display by exactly that key's display |
| Keybindings.NewPending | core/src/tui/keybinding_manager.rs:341-346 | a new pending sequence holds just its first key |
| Keybindings.AddKey | core/src/tui/keybinding_manager.rs:348-351 | adding a key puts it after the keys already pending |
| Keybindings.PendingDisplayExample | core/src/tui/keybinding_manager.rs:430-437 | the leader shows as "<Space>", and the leader followed by 'f' as "<Space>f" |
| Input.ApplyCount | core/src/tui/input.rs:146-156 | each of the six countable scroll actions becomes the counted form of that same scroll, carrying the count; every other action is unchanged |
| Input.ApplyCountInjective | core/src/tui/input.rs:146-156 | applying a count keeps different uncounted actions apart and never leaves a countable action behind |
| Input.HandleInputMode | core/src/tui/input.rs:130-144 | in an input mode Enter executes the command or the search, Esc cancels, Backspace deletes, a character is inserted, and exactly the other keys do nothing |
| Input.HandleKeyEvent | core/src/tui/input.rs:51-128 | in command or search mode the key goes to input handling and the state is untouched; in normal mode the handler never changes the mode, input buffer or search |
| Input.TimeoutForgets | core/src/tui/input.rs:64-67 | a key after an expired sequence is handled as if neither the sequence nor the count had been there |
| Input.DigitsCount | core/src/tui/input.rs:69-76 | with no pending sequence an unmodified digit only extends the count, unless it is a '0' that would start one |
| Input.PendingSequenceStep | core/src/tui/input.rs:78-99 | with a pending sequence, a completed match fires the counted action and clears sequence and count, a partial one waits with the key added, and no match drops both |
| Input.SequenceStarts | core/src/tui/input.rs:101-127 | outside a sequence, the leader or the start of a sequence begins one; a key bound nowhere only drops the count |
| Input.HandlerInvariant | core/src/tui/input.rs:51-156 | the handler keeps the state well formed; an action clears the sequence and the count; no countable action escapes, and counted ones carry at least one |
| Input.CountedKeys | core/src/tui/input.rs:69-124 | with the default bindings, "5" then "j" scrolls down five lines and leaves no count |
| Input.CountedScrollDown | core/src/tui/input.rs:101-124 | with the default bindings, 'j' scrolls down by the current count and consumes it |
| Vim.NewVim | core/src/tui/vim.rs:23-32 | a new state is in Normal mode with empty buffers, no pending sequence, no search pattern and the search position at 0 |
| Vim.EnterCommandMode | core/src/tui/vim.rs:34-37 | entering command mode sets the mode and empties the line buffer, and changes nothing else |
| Vim.EnterSearchMode | core/src/tui/vim.rs:39-42 | entering search mode sets the mode and empties the line buffer, and changes nothing else |
| Vim.ExitToNormal | core/src/tui/vim.rs:44-47 | returning to Normal empties the line buffer and changes nothing else |
| Vim.PushChar | core/src/tui/vim.rs:49-51 | a typed character is appended to the line buffer, and nothing else changes |
| Vim.PopChar | core/src/tui/vim.rs:53-55 | backspace removes the last character of the line buffer, and does nothing on an empty one |
| Vim.PopUndoesPush | core/src/tui/vim.rs:49-55 | backspace undoes a typed character |
| Vim.FilterLevel | core/src/tui/vim.rs:67-73 | a level word is accepted exactly when its upper-case form names ERROR, WARNING, INFO or DEBUG; FATAL is not accepted |
| Vim.ParseCommand | core/src/tui/vim.rs:57-88 | exactly "q" and "quit" quit, and a command never yields a search |
| Vim.ExecuteCommand | core/src/tui/vim.rs:57-88 | the trimmed buffer decides the result, and the state always returns to Normal with an empty buffer |
| Vim.WriteCommand | core/src/tui/vim.rs:62-64 | exactly "w" and "w " followed by a name write the logs; "w" alone writes with no file name, "w name" with the trimmed name |
| Vim.ClearCommand | core/src/tui/vim.rs:78-79 | exactly "nofilter" and "nf" clear the filter |
| Vim.GotoCommand | core/src/tui/vim.rs:80-81 | a goto result's line is the command read as a number, and any command that reads as a usize goes to that line |
| Vim.FilterCommand | core/src/tui/vim.rs:65-77 | "filter level=" with a word applies a level filter exactly when the word upper-cases to a level name other than FATAL |
| Vim.CommandExamples | core/src/tui/vim.rs:188-217 | "123" goes to line 123, "q" quits, and "invalid" and a bare "fl" yield nothing |
| Vim.ExecuteSearch | core/src/tui/vim.rs:90-104 | a non-empty trimmed pattern is remembered with the position reset to 0, and yields a case-insensitive pattern filter exactly when "(?i)" and the pattern compile, then returning to Normal; an empty pattern only returns to Normal; sequence and count are untouched |
| Vim.SearchFilterMatches | core/src/tui/vim.rs:100-103 | the filter of a successful search keeps exactly the entries whose message or raw line the case-insensitive expression "(?i)" + pattern matches |
| Vim.NextSearch | core/src/tui/vim.rs:106-108 | the search position moves forward by one, and nothing else changes |
| Vim.PrevSearch | core/src/tui/vim.rs:110-114 | the search position moves back by one but never below zero, and nothing else changes |
| Vim.PrevUndoesNext | core/src/tui/vim.rs:106-114 | stepping back undoes stepping forward |
| Vim.StartSequence | core/src/tui/vim.rs:116-118 | starting a sequence replaces any pending one with the single key, and nothing else changes |
| Vim.AddToSequence | core/src/tui/vim.rs:120-124 | a key extends a pending sequence at the end, and is ignored when there is none |
| Vim.ClearSequence | core/src/tui/vim.rs:126-128 | clearing drops the pending sequence and nothing else |
| Vim.SequenceDisplay | core/src/tui/vim.rs:138-140 | a display is shown exactly when a sequence is pending, and it is that sequence's display |
| Vim.HasCount | core/src/tui/vim.rs:156-158 | the count buffer is non-empty; its contract is carried by `Vim.CountDisplay` (a count is shown exactly when one is held) |
| Vim.IsSequenceTimeout | core/src/tui/vim.rs:130-136 | a pending sequence that has expired; never true with nothing pending; its use is stated by `Input.TimeoutForgets` |
| Vim.PushCountDigit | core/src/tui/vim.rs:142-146 | an ASCII digit is appended to the count buffer and anything else is ignored; nothing else changes |
| Vim.GetCount | core/src/tui/vim.rs:148-150 | the count is the buffer's value when it fits a usize, and 1 when the buffer is empty or too large |
| Vim.ClearCount | core/src/tui/vim.rs:152-154 | clearing empties the count buffer and nothing else |
| Vim.CountDisplay | core/src/tui/vim.rs:156-166 | the count is shown exactly when the buffer is non-empty, and it is shown as typed |
| Vim.LeadingDigitBound | core/src/tui/vim.rs:148-150 | digits that do not start with zero are worth at least one |
| Vim.CountAccumulates | core/src/tui/vim.rs:142-150 | each digit multiplies the count by ten and adds its value while it fits a usize, after which the count falls back to 1; a well-formed buffer gives at least one |
| Vim.FreshCountIsOne | core/src/tui/vim.rs:219-223 | a fresh state counts 1 |
| Vim.CountFortyTwo | core/src/tui/vim.rs:225-230 | the digits '4' then '2' give the count 42 |
| Vim.CountDisplayTen | core/src/tui/vim.rs:238-246 | the digits '1' then '0' display as "10" |
| Vim.ClearedCountIsOne | core/src/tui/vim.rs:225-234 | clearing a count brings it back to 1 |
| WarningLocations.WarningEntries | core/src/tui/tabs/warnings.rs:70-74 | the warnings are exactly the warning-level entries; a single entry is kept exactly when it is a warning |
| WarningLocations.WarningEntriesAppend | core/src/tui/tabs/warnings.rs:70-74 | the filter keeps the order: the warnings of a concatenation are those of the first part followed by those of the second |
| WarningLocations.LocationOf | core/src/tui/tabs/warnings.rs:91-106 | a token gives a location exactly when it has a second ':' field that parses as a usize; the path is the first field, and the column is the third field when it parses, absent without one |
| WarningLocations.CandidateFields | core/src/tui/tabs/warnings.rs:90-93 | a token that passes the candidate test always has at least two ':' fields |
| WarningLocations.ScanFindsLast | core/src/tui/tabs/warnings.rs:88-113 | the scan from the end yields the location of the last qualifying token, skipping candidates without a numeric line, and nothing when no token qualifies |
| WarningLocations.ParseWarningLocation | core/src/tui/tabs/warnings.rs:80-114 | a warning's location is that of the last token of its raw line that qualifies, and there is none exactly when no token qualifies; the message text plays no part |
| WarningLocations.GetSelectedLocation | core/src/tui/tabs/warnings.rs:69-78 | below the number of warnings the location is the one read from the selected-th warning, and there is none beyond it |
| WarningLocations.SelectedLocationIsLastQualifying | core/src/tui/tabs/warnings.rs:69-113 | the selected warning's location comes from the last token of its raw line that qualifies, and is absent exactly when none does |
| WarningLocations.LocationRoundTrip | core/src/tui/tabs/warnings.rs:88-113 | a "path:line:column" token with an absolute or "src/" or "examples/" path free of ':' reads back as exactly that location |
| PerformanceTab.StepTypeNameInjective | core/src/tui/tabs/performance.rs:192-202 | the four panel names are distinct |
| PerformanceTab.ExtractStepType | core/src/tui/tabs/performance.rs:192-202 | a step is Configure exactly when its description starts with "Configuring" or mentions "CMake"; Build exactly when it starts with "Building" and has no "CMake"; Install likewise with "Installing"; Other exactly when none of these holds |
| PerformanceTab.ContainsAfterPrefix | core/src/tui/tabs/performance.rs:193 | when no occurrence can start inside a prefix, the prefixed text mentions a word exactly when the rest does |
| PerformanceTab.ConfigureStepsClassified | core/src/tui/tabs/performance.rs:192-202 | every configure step is classed Configure |
| PerformanceTab.BuildStepsClassified | core/src/tui/tabs/performance.rs:192-202 | a build step is classed Build, or Configure when its project name mentions "CMake" |
| PerformanceTab.InstallStepsClassified | core/src/tui/tabs/performance.rs:192-202 | an install step is classed Install, or Configure when its project name mentions "CMake" |
| PerformanceTab.CleanStepsClassified | core/src/tui/tabs/performance.rs:192-202 | a clean step falls under Other, or Configure when its project name mentions "CMake" |
| PerformanceTab.ExtractProjectName | core/src/tui/tabs/performance.rs:300-319 | the first matching prefix among "Configuring ", "Building " and "Installing " is removed; with none the description is kept whole |
| PerformanceTab.ProjectNameRoundTrip | core/src/tui/tabs/performance.rs:300-319 | the project name of every configure, build and install step is read back from its description |
| PerformanceTab.CleanDescriptionKept | core/src/tui/tabs/performance.rs:300-319 | a clean step's description is shown whole |
| PerformanceTab.Group | core/src/tui/tabs/performance.rs:80-88 | a panel holds exactly the steps of its kind; a single step is kept exactly when it is of that kind |
| PerformanceTab.GroupAppend | core/src/tui/tabs/performance.rs:80-88 | a panel keeps the recorded order: for a concatenation it is the first part's steps of that kind followed by the second part's |
| PerformanceTab.GroupsPartition | core/src/tui/tabs/performance.rs:80-88 | every step lands in exactly one of the four panels |
| PerformanceTab.Rank | core/src/tui/tabs/performance.rs:90 | each panel kind has its place in the fixed order Configure, Build, Install, Other |
| PerformanceTab.GroupOrderShape | core/src/tui/tabs/performance.rs:90-95 | a panel is shown exactly when some step is of its kind, and the shown panels follow the fixed order without repeats |
| Common.Trim | core/src/tui/vim.rs:58 | trimming removes leading and trailing whitespace and nothing else: the result is a slice of the input between whitespace-only ends, and starts and ends with a non-whitespace character |
| Common.Split | core/src/parser/parser.rs:154 | splitting always yields at least one field; `Common.JoinSplit` and `Common.SplitLength` relate the fields to the text |
| Common.ToLower | core/src/executor.rs:50 | lower-casing keeps the length and maps each character on its own |
| Common.ToUpper | core/src/tui/vim.rs:67 | upper-casing keeps the length and maps each character on its own |
| Common.ParseUsize | core/src/tui/vim.rs:149 | a parsed number is at most the largest usize, and a digit string parses to its decimal value |
| Common.JoinSplit | core/src/parser/parser.rs:154 | the ':' fields of a text joined back with ':' give the text |
| Common.SplitLength | core/src/parser/parser.rs:154 | splitting yields one field more than there are separators |
| Common.SplitWhitespaceFlatten | core/src/tui/tabs/warnings.rs:86 | splitting at whitespace loses exactly the whitespace: the tokens concatenate to the input without it |
| Common.ParseUsizeOfNatToString | core/src/tui/vim.rs:80 | a usize printed in decimal parses back to itself |

## Left out

- Process spawning, pipes and the reader and callback tasks: each run is an outcome value. The interleaving of stdout and stderr lines in the output callback is concurrency and is not modelled; the model keeps only the order within each stream.
- The non-Unix branch of `execute_program` ("Abnormal termination"): the model follows the Unix build.
- Durations, instants and local timestamps: they are opaque `real` values or are left out. `MetricHistory::average`, `min` and `max`, and `parse_numeric_value`, work on floating point and are not modelled.
- Panics of `.expect` on closed channels: sends always succeed in the model.
- The concurrent layer of the stage runner: it is modelled as running each stage in turn, because each task writes only its own keys. Join failures become an abstract error outcome.
- `ExecRunner`, `ExecContext` and `StageRunner::idle`: they drive the interface's lifecycle and the resource monitor.
- The regular-expression classification of compiler lines and `strip_ansi`: the classifier is a function parameter of `Parser.ParseLine`, and only the entry counter is modelled.
- Regular expressions in `PatternFilter` and `FileFilter`: a matcher function and a `compiles` predicate stand for the regex engine.
- `PendingSequence` timestamps and `is_timeout`: whether a sequence has expired is a boolean input of `Input.HandleKeyEvent`.
- Media keys and lone modifier keys among the terminal's key codes. A key event is taken as the `KeyPress` it becomes, since `KeyPress::from_key_event` only copies its code and modifiers.
- Rendering in the interface files, the terminal event loop, the resource monitor, configuration, history storage, git capture, executable discovery, editor launch, logging and the command-line parser.
- Saving the histories after `add_entry` and `clear`: the model is the in-memory list only.
- Vim.NextSearch: does not model the `usize` overflow of the search position, which needs 2^64 steps.
- Filters.ComponentDebug: does not model the escaping Rust's `{:?}` applies inside an `Other` component's name.
- Common.ToLower, Common.ToUpper: map only the ASCII letters, plus U+212A (Kelvin sign, to 'k') when lower-casing and U+0131 and U+017F (to 'I' and 'S') when upper-casing, and keep the length; Rust's `to_lowercase` and `to_uppercase` map every cased letter and can change the length ("ß" upper-cases to "SS"). This never changes a comparison the program makes: the metric keywords and level names it compares against are ASCII; the only other characters whose mapping is pure ASCII are the upper-case ligatures and "ß", which give "SS", "FF", "FI", "FL", "FFI", "FFL" or "ST", none of which occurs in a level name; and U+0130 lower-cases to 'i' followed by a combining dot, which no keyword can match since no keyword ends in 'i'.
- Metrics.MetricTypeCaseInsensitive: is stated for ASCII keys only, since full Unicode case mapping is not modelled.

## Where the model follows the code

These are places where the code does something a reader might not expect. The model follows the code.

- The metric parser never reads a visualization suffix, and the executor calls it as written, so every metric it reports carries no visualization (see Findings; `Executor.ProgramDropsSuffix`).
- A description "Cleaning X" is classed Configure, not Other, when X contains "CMake", because the "CMake" test comes first (`PerformanceTab.CleanStepsClassified`).
- In `generate_build_all` the configure step is described with the name "CMake" and the install step with "artifacts"; only the build step carries the target's name (`Builders.RenderStep`).
- `execute_with_dependencies` builds a fresh stage context for each stage without executable info, so Exec run through it always fails with "Exec stage requires executable info" (`StageRunners.ExecViaDependenciesFails`).
- After a failure in a sequential layer, the remaining stages of that layer get no result at all (`StageRunners.ExecFailureStopsLayer`).
- The fail-fast check reads the runner's whole result map, so a failure left from an earlier run that was not cleared skips every requested stage when the failed stage is not itself requested again; if it is requested again, its layer is stored as Skipped and later layers run (`StageRunners.StaleFailureSkipsAll`).
- `add_step` never sets `success` to true; only `finalize` does (`History.AddStepsFromNew`).
- A count buffer too large for a `usize` gives a count of 1 (`Vim.CountAccumulates`).
- "filter level=" does not accept FATAL (`Vim.FilterLevel`).

## Findings

| source | as written | input that shows it | evidently intended | confidence | as-written member | corrected member |
|---|---|---|---|---|---|---|
| core/src/parser/parser.rs:154-168 | the line is split on ':' before the value is split again on ':', so the value never contains ':' and the visualization is always None | "[IGNIS_METRIC] render:fps=60:gauge" gives fps=60 with no visualization | the third ':' field names the visualization, here Gauge | not executed | Parser.ParseMetricLineAsWritten, Parser.VisualizationSuffixIgnored | Parser.ParseMetricLine, Parser.MetricLineRoundTrip |
