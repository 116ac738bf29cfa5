/**
 * In-memory bookkeeping of past builds and executions: an entry that
 * accumulates step results, and bounded lists of entries. Loading and
 * saving the lists, timestamps and the git queries are not modelled; the
 * git commit and branch are inputs.
 */
module History {
  import opened Common

  /** One step of a recorded build. Durations are opaque values. */
  datatype BuildStepResult = BuildStepResult(
    description: string,
    duration: real,
    success: bool,
    errorCount: nat,
    warningCount: nat)

  datatype BuildHistoryEntry = BuildHistoryEntry(
    preset: string,
    duration: real,
    success: bool,
    errorCount: nat,
    warningCount: nat,
    steps: seq<BuildStepResult>,
    note: Option<string>,
    gitCommit: Option<string>,
    gitBranch: Option<string>)

  /** `BuildHistoryEntry::new`: not (yet) a success, no steps, no counts. */
  function NewBuildEntry(preset: string, gitCommit: Option<string>, gitBranch: Option<string>): (e: BuildHistoryEntry)
    ensures e.preset == preset && e.gitCommit == gitCommit && e.gitBranch == gitBranch
    ensures !e.success && e.errorCount == 0 && e.warningCount == 0 && e.steps == [] && e.note == None
  {
    BuildHistoryEntry(preset, 0.0, false, 0, 0, [], None, gitCommit, gitBranch)
  }

  /** `add_step`: appends the step and adds its counts; the entry's
      success is and-ed with the step's. */
  function AddStep(e: BuildHistoryEntry, step: BuildStepResult): (r: BuildHistoryEntry)
    ensures r.steps == e.steps + [step]
    ensures r.errorCount == e.errorCount + step.errorCount
    ensures r.warningCount == e.warningCount + step.warningCount
    ensures r.success <==> e.success && step.success
    ensures r.(steps := e.steps, errorCount := e.errorCount, warningCount := e.warningCount, success := e.success) == e
  {
    e.(errorCount := e.errorCount + step.errorCount,
       warningCount := e.warningCount + step.warningCount,
       success := step.success && e.success,
       steps := e.steps + [step])
  }

  /** Steps added one after another. */
  function AddSteps(e: BuildHistoryEntry, steps: seq<BuildStepResult>): BuildHistoryEntry
    decreases |steps|
  {
    if |steps| == 0 then e else AddStep(AddSteps(e, steps[..|steps| - 1]), steps[|steps| - 1])
  }

  /** All of the steps' error counts, and all of their warning counts. */
  function SumErrors(steps: seq<BuildStepResult>): nat
  {
    if |steps| == 0 then 0 else SumErrors(steps[..|steps| - 1]) + steps[|steps| - 1].errorCount
  }

  function SumWarnings(steps: seq<BuildStepResult>): nat
  {
    if |steps| == 0 then 0 else SumWarnings(steps[..|steps| - 1]) + steps[|steps| - 1].warningCount
  }

  /** `finalize`: sets the duration, and success exactly when every step
      succeeded (so a build without steps succeeds). */
  function Finalize(e: BuildHistoryEntry, totalDuration: real): (r: BuildHistoryEntry)
    ensures r.duration == totalDuration
    ensures r.success <==> forall i :: 0 <= i < |e.steps| ==> e.steps[i].success
    ensures r.(duration := e.duration, success := e.success) == e
  {
    e.(duration := totalDuration, success := forall i :: 0 <= i < |e.steps| ==> e.steps[i].success)
  }

  /** Adding steps to a new entry records them in order with their total
      counts, and never makes it a success: only `finalize` does. */
  lemma AddStepsFromNew(preset: string, c: Option<string>, b: Option<string>, steps: seq<BuildStepResult>)
    ensures var e := AddSteps(NewBuildEntry(preset, c, b), steps);
      && e.steps == steps
      && e.errorCount == SumErrors(steps)
      && e.warningCount == SumWarnings(steps)
      && !e.success
      && e.preset == preset
  {
    var e0 := NewBuildEntry(preset, c, b);
    AddStepsFields(e0, steps);
    assert e0.steps + steps == steps;
  }

  /** Adding steps to any entry appends them and their counts, keeps the
      preset, and can only keep or clear the success flag. */
  lemma {:induction false} AddStepsFields(e: BuildHistoryEntry, steps: seq<BuildStepResult>)
    ensures var r := AddSteps(e, steps);
      && r.steps == e.steps + steps
      && r.errorCount == e.errorCount + SumErrors(steps)
      && r.warningCount == e.warningCount + SumWarnings(steps)
      && (r.success ==> e.success)
      && r.preset == e.preset
    decreases |steps|
  {
    if |steps| == 0 {
      assert e.steps + steps == e.steps;
    } else {
      var init, last := steps[..|steps| - 1], steps[|steps| - 1];
      AddStepsFields(e, init);
      var prev := AddSteps(e, init);
      var r := AddStep(prev, last);
      assert AddSteps(e, steps) == r;
      assert r.preset == prev.preset;
      assert e.steps + steps == (e.steps + init) + [last] by {
        assert steps == init + [last];
      }
    }
  }

  /** A build whose steps all succeeded is a success once finalized, and
      one with a failed step is not. */
  lemma FinalizedBuild(preset: string, c: Option<string>, b: Option<string>, steps: seq<BuildStepResult>, d: real)
    ensures var e := Finalize(AddSteps(NewBuildEntry(preset, c, b), steps), d);
      (e.success <==> forall i :: 0 <= i < |steps| ==> steps[i].success) && e.steps == steps
  {
    AddStepsFromNew(preset, c, b, steps);
  }

  // ---------------------------------------------------------------------
  // Bounded lists of entries
  // ---------------------------------------------------------------------

  /** `last()` on a list of entries, as both histories' `last_entry` use
      it: the most recent entry, absent exactly when there is none. */
  function LastOf<T>(entries: seq<T>): (r: Option<T>)
    ensures r.Some? <==> |entries| > 0
    ensures r.Some? ==> r.value == entries[|entries| - 1]
  {
    if |entries| == 0 then None else Some(entries[|entries| - 1])
  }

  /** `add_entry`'s list update: push the entry, then remove the first
      one if the list is longer than `max`. At most one entry goes, so a
      list already over the bound stays over it. */
  function BoundedPush<T>(entries: seq<T>, e: T, max: nat): (r: seq<T>)
    ensures EndsWith(entries + [e], r)
    ensures |r| == if |entries| + 1 > max then |entries| else |entries| + 1
  {
    var pushed := entries + [e];
    if |pushed| > max then pushed[1..] else pushed
  }

  /** The entry just added is the last one, unless the bound is zero and
      the list was empty, which leaves the list empty. */
  lemma BoundedPushLast<T>(entries: seq<T>, e: T, max: nat)
    ensures var r := BoundedPush(entries, e, max);
      (|r| == 0 <==> entries == [] && max == 0) && (|r| > 0 ==> r[|r| - 1] == e)
  {
    var r := BoundedPush(entries, e, max);
    if |r| > 0 {
      assert r == (entries + [e])[|entries| + 1 - |r|..];
    }
  }

  function BoundedPushes<T>(entries: seq<T>, xs: seq<T>, max: nat): seq<T>
    decreases |xs|
  {
    if |xs| == 0 then entries else BoundedPush(BoundedPushes(entries, xs[..|xs| - 1], max), xs[|xs| - 1], max)
  }

  /** Within the bound, the list is a sliding window: after any number of
      additions it holds exactly the last `max` entries of everything
      added. */
  lemma {:induction false} BoundedPushesWindow<T>(entries: seq<T>, xs: seq<T>, max: nat)
    requires |entries| <= max
    ensures BoundedPushes(entries, xs, max) == (entries + xs)[Max(0, |entries| + |xs| - max)..]
    decreases |xs|
  {
    if |xs| > 0 {
      var xs' := xs[..|xs| - 1];
      var x := xs[|xs| - 1];
      BoundedPushesWindow(entries, xs', max);
      AppendLast(entries, xs);
      var all := entries + xs';
      var k := Max(0, |all| - max);
      var window := BoundedPushes(entries, xs', max);
      if |window| + 1 > max && |window| > 0 {
        SliceShift(all, x, k);
      } else if |window| + 1 > max {
        assert BoundedPush(window, x, max) == [];
      } else {
        assert all[k..] + [x] == (all + [x])[k..];
      }
    }
  }

  datatype BuildHistory = BuildHistory(entries: seq<BuildHistoryEntry>, maxBuilds: nat)

  /** `BuildHistory::add_entry`, without the save. */
  function AddBuild(h: BuildHistory, e: BuildHistoryEntry): (r: BuildHistory)
    ensures r.maxBuilds == h.maxBuilds
    ensures r.entries == BoundedPush(h.entries, e, h.maxBuilds)
  {
    BuildHistory(BoundedPush(h.entries, e, h.maxBuilds), h.maxBuilds)
  }

  /** `last_entry`. */
  function LastBuild(h: BuildHistory): Option<BuildHistoryEntry>
  {
    LastOf(h.entries)
  }

  /** `BuildHistory::clear`, without the save. */
  function ClearBuilds(h: BuildHistory): (r: BuildHistory)
    ensures LastBuild(r) == None && r.maxBuilds == h.maxBuilds
  {
    h.(entries := [])
  }

  /** After `add_entry` the entry is the last one (unless the bound is
      zero and the history was empty), and a history within its bound
      stays within it. */
  lemma AddBuildBounded(h: BuildHistory, e: BuildHistoryEntry)
    ensures var r := AddBuild(h, e);
      (LastBuild(r) == Some(e) <==> |h.entries| > 0 || h.maxBuilds > 0)
      && (|h.entries| <= h.maxBuilds ==> |r.entries| <= h.maxBuilds)
  {
    var r := AddBuild(h, e);
    BoundedPushLast(h.entries, e, h.maxBuilds);
    assert r.entries == BoundedPush(h.entries, e, h.maxBuilds);
    if |r.entries| > 0 {
      assert LastBuild(r) == Some(r.entries[|r.entries| - 1]);
    }
  }

  datatype ExecutionHistoryEntry = ExecutionHistoryEntry(
    executableName: string,
    executablePath: string,
    duration: real,
    exitCode: Option<int>,
    success: bool,
    errorCount: nat,
    warningCount: nat,
    metricCount: nat,
    logCount: nat,
    failureReason: Option<string>)

  /** `ExecutionHistoryEntry::new`. */
  function NewExecutionEntry(name: string, path: string): (e: ExecutionHistoryEntry)
    ensures e.executableName == name && e.executablePath == path
    ensures !e.success && e.exitCode == None && e.failureReason == None
    ensures e.errorCount == 0 && e.warningCount == 0 && e.metricCount == 0 && e.logCount == 0
  {
    ExecutionHistoryEntry(name, path, 0.0, None, false, 0, 0, 0, 0, None)
  }

  datatype ExecutionHistory = ExecutionHistory(entries: seq<ExecutionHistoryEntry>, maxEntries: nat)

  /** `ExecutionHistory::add_entry`, without the save. */
  function AddExecution(h: ExecutionHistory, e: ExecutionHistoryEntry): (r: ExecutionHistory)
    ensures r.maxEntries == h.maxEntries
    ensures r.entries == BoundedPush(h.entries, e, h.maxEntries)
  {
    ExecutionHistory(BoundedPush(h.entries, e, h.maxEntries), h.maxEntries)
  }

  /** `ExecutionHistory::last_entry`. */
  function LastExecution(h: ExecutionHistory): Option<ExecutionHistoryEntry>
  {
    LastOf(h.entries)
  }

  /** `ExecutionHistory::clear`, without the save. */
  function ClearExecutions(h: ExecutionHistory): (r: ExecutionHistory)
    ensures LastExecution(r) == None && r.maxEntries == h.maxEntries
  {
    h.(entries := [])
  }

  /** The execution history keeps the same bound as the build history. */
  lemma AddExecutionBounded(h: ExecutionHistory, e: ExecutionHistoryEntry)
    ensures var r := AddExecution(h, e);
      (LastExecution(r) == Some(e) <==> |h.entries| > 0 || h.maxEntries > 0)
      && (|h.entries| <= h.maxEntries ==> |r.entries| <= h.maxEntries)
  {
    var r := AddExecution(h, e);
    BoundedPushLast(h.entries, e, h.maxEntries);
    if |r.entries| > 0 {
      assert LastExecution(r) == Some(r.entries[|r.entries| - 1]);
    }
  }
}
