/**
 * Running steps and programs. A child process is not run: its fate is an
 * input (an outcome), and what the engine reports over its channels is
 * returned as a sequence of updates and log entries.
 */
module Executor {
  import opened Common
  import opened Metrics
  import opened Entries
  import opened Parser
  import opened Commands
  import opened Builders

  /** `ExecutionResult`. The duration is carried, never computed on. */
  datatype ExecutionResult = ExecutionResult(
    success: bool,
    duration: real,
    stdout: seq<string>,
    stderr: seq<string>,
    exitCode: Option<int>,
    failureReason: Option<string>)

  /** `StepUpdate`: what the engine sends on its step channel. */
  datatype StepUpdate =
    | Started(description: string)
    | Progress(message: string)
    | Finished(result: ExecutionResult)
    | ProcessStarted(pid: nat)
    | ProcessFinished(pid: nat)
    | Metric(metric: RuntimeMetric)

  /** How a Unix child ended: with an exit code, or killed by a signal. */
  datatype ExitStatus = Exited(code: int) | Signaled(signal: int)

  /** `ExitStatus::success`. */
  predicate StatusSuccess(s: ExitStatus)
  {
    s == Exited(0)
  }

  /** `ExitStatus::code`: present exactly when the child exited. */
  function StatusCode(s: ExitStatus): (r: Option<int>)
    ensures r.Some? <==> s.Exited?
  {
    match s
    case Exited(c) => Some(c)
    case Signaled(_) => None
  }

  /** Where an attempt to run a child can break down, in the order the
      engine reaches these points. */
  datatype Fault =
    | SpawnFault
    | CaptureStdoutFault
    | CaptureStderrFault
    | WaitFault
    | StdoutJoinFault
    | StderrJoinFault

  /** The child existed (so a pid may have been reported) before the
      fault. */
  predicate AfterSpawn(f: Fault)
  {
    f != SpawnFault
  }

  /** The child had been waited for before the fault. */
  predicate AfterWait(f: Fault)
  {
    f == StdoutJoinFault || f == StderrJoinFault
  }

  /** The outcome of running one child: a fault, or its exit status with
      the lines it printed. `pid` is what the platform reported, if any.
      `linesSeen` and `errLinesSeen` of a fault are the stdout and stderr
      lines the reader tasks had read before it. */
  datatype Outcome =
    | Faulted(faultPid: Option<nat>, fault: Fault, linesSeen: seq<string>, errLinesSeen: seq<string>)
    | Completed(pid: Option<nat>, status: ExitStatus, stdout: seq<string>, stderr: seq<string>, duration: real)

  /** Decimal rendering of an `i32` (`{}`). */
  function IntToString(n: int): (s: string)
    ensures |s| > 0
  {
    if n < 0 then "-" + NatToString(-n) else NatToString(n)
  }

  /** Reads back a decimal integer with an optional leading '-'. */
  function ParseInt(s: string): (r: Option<int>)
  {
    if |s| > 0 && s[0] == '-' then
      if |s| > 1 && AllDigits(s[1..]) then Some(-(DigitsValue(s[1..]) as int)) else None
    else if |s| > 0 && AllDigits(s) then Some(DigitsValue(s))
    else None
  }

  lemma ParseIntOfIntToString(n: int)
    ensures ParseInt(IntToString(n)) == Some(n)
  {
    if n < 0 {
      var d := NatToString(-n);
      DigitsValueOfNatToString(-n);
      assert ("-" + d)[1..] == d;
    } else {
      DigitsValueOfNatToString(n);
    }
  }

  const EXIT_CODE_PREFIX: string := "Exit code "

  /** The failure reason for a nonzero exit code. */
  function ExitCodeReason(code: int): (s: string)
    ensures StripPrefix(s, EXIT_CODE_PREFIX) == Some(IntToString(code))
  {
    var s := EXIT_CODE_PREFIX + IntToString(code);
    assert s[|EXIT_CODE_PREFIX|..] == IntToString(code);
    s
  }

  /** An exit-code reason loses nothing: the code reads back from it. */
  lemma ExitCodeReasonRoundTrip(code: int)
    ensures ParseInt(StripPrefix(ExitCodeReason(code), EXIT_CODE_PREFIX).value) == Some(code)
  {
    ParseIntOfIntToString(code);
  }

  // ---------------------------------------------------------------------
  // execute_step
  // ---------------------------------------------------------------------

  /** The error text `execute_step` reports for a fault. */
  function StepFaultMessage(f: Fault, program: string): string
  {
    match f
    case SpawnFault => "Failed to spawn command: " + program
    case CaptureStdoutFault => "Failed to capture stdout"
    case CaptureStderrFault => "Failed to capture stderr"
    case WaitFault => "Failed to wait for child process"
    case StdoutJoinFault => "stdout task panicked"
    case StderrJoinFault => "stderr task panicked"
  }

  /** `execute_step`: `command[0]` is the program (so the argv must not be
      empty). The pid updates go out only when there is both a pid and a
      step channel; the start before the finish. A child that exited gives
      a result whose success is the exit status's, with "Exit code N" as
      the reason on a nonzero code and no reason at all on a signal. */
  function ExecuteStep(command: seq<string>, outcome: Outcome, hasSink: bool): (r: (Result<ExecutionResult, string>, seq<StepUpdate>))
    requires |command| > 0
    ensures outcome.Faulted? <==> r.0.Err?
    ensures outcome.Faulted? ==> r.0.error == StepFaultMessage(outcome.fault, command[0])
    ensures outcome.Completed? ==> var res := r.0.value;
      && (res.success <==> StatusSuccess(outcome.status))
      && res.exitCode == StatusCode(outcome.status)
      && res.stdout == outcome.stdout && res.stderr == outcome.stderr
      && (res.success ==> res.failureReason == None)
      && (outcome.status.Signaled? ==> res.failureReason == None)
      && (outcome.status.Exited? && outcome.status.code != 0 ==> res.failureReason == Some(ExitCodeReason(outcome.status.code)))
    ensures !hasSink ==> r.1 == []
    ensures forall i :: 0 <= i < |r.1| ==> r.1[i].ProcessStarted? || r.1[i].ProcessFinished?
    ensures |r.1| <= 2 && (|r.1| > 0 ==> r.1[0].ProcessStarted?)
    ensures outcome.Completed? && hasSink && outcome.pid.Some? ==>
      r.1 == [ProcessStarted(outcome.pid.value), ProcessFinished(outcome.pid.value)]
  {
    var program := command[0];
    match outcome
    case Faulted(pid, fault, _, _) =>
      var started := if hasSink && pid.Some? && AfterSpawn(fault) then [ProcessStarted(pid.value)] else [];
      var finished := if hasSink && pid.Some? && AfterWait(fault) then [ProcessFinished(pid.value)] else [];
      (Err(StepFaultMessage(fault, program)), started + finished)
    case Completed(pid, status, out, err, duration) =>
      var code := StatusCode(status);
      var reason := if !StatusSuccess(status) && code.Some? then Some(ExitCodeReason(code.value)) else None;
      var events := if hasSink && pid.Some? then [ProcessStarted(pid.value), ProcessFinished(pid.value)] else [];
      (Ok(ExecutionResult(StatusSuccess(status), duration, out, err, code, reason)), events)
  }

  // ---------------------------------------------------------------------
  // execute_steps
  // ---------------------------------------------------------------------

  /** What one executed step contributes to the step channel:
      `Started(description)`, the step's own pid updates, and on success of
      the call `Finished(result)`. */
  function StepUpdates(step: BuildStep, outcome: Outcome): (u: seq<StepUpdate>)
    requires |step.commands| > 0
    ensures |u| >= 1 && u[0] == Started(step.description)
  {
    var (r, events) := ExecuteStep(step.commands, outcome, true);
    [Started(step.description)] + events + (if r.Ok? then [Finished(r.value)] else [])
  }

  /** Every step has a program to spawn. */
  predicate AllSpawnable(steps: seq<BuildStep>)
  {
    forall i :: 0 <= i < |steps| ==> |steps[i].commands| > 0
  }

  /** The result the step at `i` yields, given that it completes. */
  function StepResult(steps: seq<BuildStep>, outcomes: seq<Outcome>, i: nat): ExecutionResult
    requires |outcomes| == |steps| && AllSpawnable(steps) && i < |steps|
    requires outcomes[i].Completed?
  {
    ExecuteStep(steps[i].commands, outcomes[i], true).0.value
  }

  /** The updates of the first `n` steps, in order. */
  function UpdatesUpTo(steps: seq<BuildStep>, outcomes: seq<Outcome>, n: nat): seq<StepUpdate>
    requires |outcomes| == |steps| && AllSpawnable(steps) && n <= |steps|
  {
    if n == 0 then [] else UpdatesUpTo(steps, outcomes, n - 1) + StepUpdates(steps[n - 1], outcomes[n - 1])
  }

  /** The step at `k` is the first to fault, after `k` successful steps,
      and the call reports its error and the updates up to and including it. */
  predicate FaultsAt(steps: seq<BuildStep>, outcomes: seq<Outcome>, k: int, error: string, updates: seq<StepUpdate>)
    requires |outcomes| == |steps| && AllSpawnable(steps)
  {
    && 0 <= k < |steps| && outcomes[k].Faulted?
    && (forall i :: 0 <= i < k ==> outcomes[i].Completed? && StepResult(steps, outcomes, i).success)
    && error == StepFaultMessage(outcomes[k].fault, steps[k].commands[0])
    && updates == UpdatesUpTo(steps, outcomes, k + 1)
  }

  /** The loop of `execute_steps` from step `i` on, given the results and
      updates of the steps before it. */
  function StepsFrom(steps: seq<BuildStep>, outcomes: seq<Outcome>, i: nat,
                     results: seq<ExecutionResult>, updates: seq<StepUpdate>): (Result<seq<ExecutionResult>, string>, seq<StepUpdate>)
    requires |outcomes| == |steps| && AllSpawnable(steps) && i <= |steps|
    decreases |steps| - i
  {
    if i == |steps| then (Ok(results), updates)
    else
      var res := ExecuteStep(steps[i].commands, outcomes[i], true).0;
      var updates' := updates + StepUpdates(steps[i], outcomes[i]);
      if res.Err? then (Err(res.error), updates')
      else if !res.value.success then (Ok(results + [res.value]), updates')
      else StepsFrom(steps, outcomes, i + 1, results + [res.value], updates')
  }

  /** `execute_steps` as a value: the results (or the fault) and the
      updates sent. */
  function RunSteps(steps: seq<BuildStep>, outcomes: seq<Outcome>): (Result<seq<ExecutionResult>, string>, seq<StepUpdate>)
    requires |outcomes| == |steps| && AllSpawnable(steps)
  {
    StepsFrom(steps, outcomes, 0, [], [])
  }

  /** What `execute_steps` promises of its outcome `(r, updates)`: steps
      run in order and the loop stops after the first failed step; a fault
      while running a step ends the whole call with that step's error. */
  ghost predicate LoopPromise(steps: seq<BuildStep>, outcomes: seq<Outcome>,
                              r: Result<seq<ExecutionResult>, string>, updates: seq<StepUpdate>)
    requires |outcomes| == |steps| && AllSpawnable(steps)
  {
    && (r.Ok? ==> |r.value| <= |steps|)
    && (r.Ok? ==> forall i :: 0 <= i < |r.value| ==>
          outcomes[i].Completed? && r.value[i] == StepResult(steps, outcomes, i))
    && (r.Ok? ==> forall i :: 0 <= i < |r.value| - 1 ==> r.value[i].success)
    && (r.Ok? && |r.value| < |steps| ==> |r.value| > 0 && !r.value[|r.value| - 1].success)
    && (r.Ok? ==> updates == UpdatesUpTo(steps, outcomes, |r.value|))
    && (r.Err? ==> exists k :: FaultsAt(steps, outcomes, k, r.error, updates))
  }

  /** The whole run keeps the promise. */
  lemma RunStepsShape(steps: seq<BuildStep>, outcomes: seq<Outcome>)
    requires |outcomes| == |steps| && AllSpawnable(steps)
    ensures LoopPromise(steps, outcomes, RunSteps(steps, outcomes).0, RunSteps(steps, outcomes).1)
  {
    StepsFromShape(steps, outcomes, 0, [], []);
  }

  /** What the loop knows when it reaches step `i`. */
  predicate LoopSoFar(steps: seq<BuildStep>, outcomes: seq<Outcome>, i: nat,
                      results: seq<ExecutionResult>, updates: seq<StepUpdate>)
    requires |outcomes| == |steps| && AllSpawnable(steps)
  {
    && i <= |steps| && |results| == i
    && (forall j :: 0 <= j < i ==> outcomes[j].Completed? && results[j] == StepResult(steps, outcomes, j))
    && (forall j :: 0 <= j < i ==> results[j].success)
    && updates == UpdatesUpTo(steps, outcomes, i)
  }

  /** The loop keeps its promise from step `i` on, given that the steps
      before it all succeeded. */
  lemma {:induction false} StepsFromShape(steps: seq<BuildStep>, outcomes: seq<Outcome>, i: nat,
                                          results: seq<ExecutionResult>, updates: seq<StepUpdate>)
    requires |outcomes| == |steps| && AllSpawnable(steps)
    requires LoopSoFar(steps, outcomes, i, results, updates)
    ensures var p := StepsFrom(steps, outcomes, i, results, updates);
      LoopPromise(steps, outcomes, p.0, p.1)
    decreases |steps| - i
  {
    if i < |steps| {
      var res := ExecuteStep(steps[i].commands, outcomes[i], true).0;
      var updates' := updates + StepUpdates(steps[i], outcomes[i]);
      if res.Err? {
        FaultShape(steps, outcomes, i, results, updates);
      } else if !res.value.success {
        StopShape(steps, outcomes, i, results, updates);
      } else {
        ContinueShape(steps, outcomes, i, results, updates);
        StepsFromShape(steps, outcomes, i + 1, results + [res.value], updates');
      }
    }
  }

  /** A fault at step `i` ends the run there. */
  lemma FaultShape(steps: seq<BuildStep>, outcomes: seq<Outcome>, i: nat,
                   results: seq<ExecutionResult>, updates: seq<StepUpdate>)
    requires |outcomes| == |steps| && AllSpawnable(steps)
    requires LoopSoFar(steps, outcomes, i, results, updates) && i < |steps|
    requires ExecuteStep(steps[i].commands, outcomes[i], true).0.Err?
    ensures var p := StepsFrom(steps, outcomes, i, results, updates);
      LoopPromise(steps, outcomes, p.0, p.1)
  {
    var res := ExecuteStep(steps[i].commands, outcomes[i], true).0;
    var updates' := updates + StepUpdates(steps[i], outcomes[i]);
    assert updates' == UpdatesUpTo(steps, outcomes, i + 1);
    assert StepsFrom(steps, outcomes, i, results, updates) == (Err(res.error), updates');
    assert FaultsAt(steps, outcomes, i, res.error, updates');
  }

  /** A failed step at `i` is the last one run. */
  lemma StopShape(steps: seq<BuildStep>, outcomes: seq<Outcome>, i: nat,
                  results: seq<ExecutionResult>, updates: seq<StepUpdate>)
    requires |outcomes| == |steps| && AllSpawnable(steps)
    requires LoopSoFar(steps, outcomes, i, results, updates) && i < |steps|
    requires var res := ExecuteStep(steps[i].commands, outcomes[i], true).0;
      res.Ok? && !res.value.success
    ensures var p := StepsFrom(steps, outcomes, i, results, updates);
      LoopPromise(steps, outcomes, p.0, p.1)
  {
    var res := ExecuteStep(steps[i].commands, outcomes[i], true).0;
    var updates' := updates + StepUpdates(steps[i], outcomes[i]);
    assert updates' == UpdatesUpTo(steps, outcomes, i + 1);
    assert res.value == StepResult(steps, outcomes, i);
    assert StepsFrom(steps, outcomes, i, results, updates) == (Ok(results + [res.value]), updates');
  }

  /** A successful step at `i` extends what the loop knows, and the run
      goes on from `i + 1`. */
  lemma ContinueShape(steps: seq<BuildStep>, outcomes: seq<Outcome>, i: nat,
                      results: seq<ExecutionResult>, updates: seq<StepUpdate>)
    requires |outcomes| == |steps| && AllSpawnable(steps)
    requires LoopSoFar(steps, outcomes, i, results, updates) && i < |steps|
    requires var res := ExecuteStep(steps[i].commands, outcomes[i], true).0;
      res.Ok? && res.value.success
    ensures var res := ExecuteStep(steps[i].commands, outcomes[i], true).0;
      var updates' := updates + StepUpdates(steps[i], outcomes[i]);
      && LoopSoFar(steps, outcomes, i + 1, results + [res.value], updates')
      && StepsFrom(steps, outcomes, i, results, updates) == StepsFrom(steps, outcomes, i + 1, results + [res.value], updates')
  {
    var res := ExecuteStep(steps[i].commands, outcomes[i], true).0;
    var updates' := updates + StepUpdates(steps[i], outcomes[i]);
    assert updates' == UpdatesUpTo(steps, outcomes, i + 1);
    assert res.value == StepResult(steps, outcomes, i);
  }

  /** `execute_steps`: the loop computes `RunSteps`, whose promises
      `RunStepsShape` states. */
  method ExecuteSteps(steps: seq<BuildStep>, outcomes: seq<Outcome>)
      returns (r: Result<seq<ExecutionResult>, string>, updates: seq<StepUpdate>)
    requires |outcomes| == |steps| && AllSpawnable(steps)
    ensures (r, updates) == RunSteps(steps, outcomes)
    ensures r.Ok? ==> |r.value| <= |steps|
    ensures r.Err? ==> exists k :: FaultsAt(steps, outcomes, k, r.error, updates)
  {
    var results: seq<ExecutionResult> := [];
    updates := [];
    var i := 0;
    while i < |steps|
      invariant 0 <= i <= |steps|
      invariant StepsFrom(steps, outcomes, i, results, updates) == RunSteps(steps, outcomes)
    {
      var step := steps[i];
      var (res, _) := ExecuteStep(step.commands, outcomes[i], true);
      updates := updates + StepUpdates(step, outcomes[i]);
      if res.Err? {
        r := Err(res.error);
        RunStepsShape(steps, outcomes);
        return;
      }
      results := results + [res.value];
      i := i + 1;
      if !res.value.success {
        r := Ok(results);
        RunStepsShape(steps, outcomes);
        return;
      }
    }
    r := Ok(results);
    RunStepsShape(steps, outcomes);
  }

  // ---------------------------------------------------------------------
  // execute_program
  // ---------------------------------------------------------------------

  /** The stdout lines that are metric lines, and the others, in order.
      The reader task calls the metric parser as written. */
  function MetricLines(lines: seq<string>): (ms: seq<string>)
    ensures forall k :: 0 <= k < |ms| ==> ParseMetricLineAsWritten(ms[k]).Some?
  {
    if |lines| == 0 then []
    else MetricLines(lines[..|lines| - 1]) + (if ParseMetricLineAsWritten(lines[|lines| - 1]).Some? then [lines[|lines| - 1]] else [])
  }

  function PlainLines(lines: seq<string>): (ps: seq<string>)
    ensures forall k :: 0 <= k < |ps| ==> ParseMetricLineAsWritten(ps[k]).None?
  {
    if |lines| == 0 then []
    else PlainLines(lines[..|lines| - 1]) + (if ParseMetricLineAsWritten(lines[|lines| - 1]).None? then [lines[|lines| - 1]] else [])
  }

  /** Each stdout line goes to exactly one of the two streams. */
  lemma {:induction false} StdoutPartition(lines: seq<string>)
    ensures |MetricLines(lines)| + |PlainLines(lines)| == |lines|
    ensures forall l :: l in lines ==> (l in MetricLines(lines) <==> ParseMetricLineAsWritten(l).Some?)
    ensures forall l :: l in lines ==> (l in PlainLines(lines) <==> ParseMetricLineAsWritten(l).None?)
    ensures forall l :: l in MetricLines(lines) || l in PlainLines(lines) ==> l in lines
  {
    if |lines| > 0 {
      var init := lines[..|lines| - 1];
      StdoutPartition(init);
      assert lines == init + [lines[|lines| - 1]];
    }
  }

  const EXEC_COMPONENT: LogComponent := Other("exec")
  const SYSTEM_COMPONENT: LogComponent := Other("system")
  const STDERR_BASE_INDEX: nat := 100000
  const SIGNAL_ENTRY_INDEX: nat := 999999
  const EXIT_ENTRY_INDEX: nat := 999998

  /** The Info entries for the plain stdout lines, numbered from 0. */
  function StdoutEntries(lines: seq<string>): (es: seq<LogEntry>)
    ensures |es| == |PlainLines(lines)|
    ensures forall i :: 0 <= i < |es| ==> es[i] == NewEntry(Info, PlainLines(lines)[i], PlainLines(lines)[i], EXEC_COMPONENT, i)
  {
    seq(|PlainLines(lines)|, i requires 0 <= i < |PlainLines(lines)| =>
      NewEntry(Info, PlainLines(lines)[i], PlainLines(lines)[i], EXEC_COMPONENT, i))
  }

  /** The Metric updates for the metric lines, in order. */
  function MetricUpdates(lines: seq<string>): (us: seq<StepUpdate>)
    ensures |us| == |MetricLines(lines)|
    ensures forall i :: 0 <= i < |us| ==> us[i].Metric? && Some(us[i].metric) == ParseMetricLineAsWritten(MetricLines(lines)[i])
    ensures forall i :: 0 <= i < |us| ==> us[i].metric.explicitVisualization == None
  {
    seq(|MetricLines(lines)|, i requires 0 <= i < |MetricLines(lines)| =>
      Metric(ParseMetricLineAsWritten(MetricLines(lines)[i]).value))
  }

  /** The Error entries for the stderr lines, numbered from 100000. */
  function StderrEntries(lines: seq<string>): (es: seq<LogEntry>)
    ensures |es| == |lines|
    ensures forall i :: 0 <= i < |es| ==> es[i] == NewEntry(Error, lines[i], lines[i], EXEC_COMPONENT, STDERR_BASE_INDEX + i)
  {
    seq(|lines|, i requires 0 <= i < |lines| => NewEntry(Error, lines[i], lines[i], EXEC_COMPONENT, STDERR_BASE_INDEX + i))
  }

  /** The signal table. */
  function SignalName(signal: int): string
  {
    match signal
    case 1 => "SIGHUP (Hangup)"
    case 2 => "SIGINT (Interrupt)"
    case 3 => "SIGQUIT (Quit)"
    case 4 => "SIGILL (Illegal instruction)"
    case 6 => "SIGABRT (Abort)"
    case 8 => "SIGFPE (Floating point exception)"
    case 9 => "SIGKILL (Killed)"
    case 11 => "SIGSEGV (Segmentation fault)"
    case 13 => "SIGPIPE (Broken pipe)"
    case 15 => "SIGTERM (Terminated)"
    case _ => "Unknown signal"
  }

  /** The ten signals the table names. */
  lemma SignalTable(signal: int)
    ensures SignalName(signal) != "Unknown signal" <==> signal in {1, 2, 3, 4, 6, 8, 9, 11, 13, 15}
    ensures SignalName(2) == "SIGINT (Interrupt)" && SignalName(9) == "SIGKILL (Killed)"
    ensures SignalName(11) == "SIGSEGV (Segmentation fault)" && SignalName(15) == "SIGTERM (Terminated)"
  {
  }

  function SignalReason(signal: int): string
  {
    "Signal " + IntToString(signal) + " (" + SignalName(signal) + ")"
  }

  /** The heavy rule framing the signal message. */
  const RULE: string := "\U{2501}\U{2501}\U{2501}\U{2501}\U{2501}\U{2501}\U{2501}\U{2501}\U{2501}\U{2501}\U{2501}\U{2501}\U{2501}\U{2501}\U{2501}\U{2501}\U{2501}\U{2501}\U{2501}\U{2501}\U{2501}\U{2501}\U{2501}\U{2501}\U{2501}\U{2501}\U{2501}\U{2501}\U{2501}\U{2501}\U{2501}\U{2501}\U{2501}\U{2501}\U{2501}\U{2501}\U{2501}\U{2501}\U{2501}\U{2501}\U{2501}\U{2501}\U{2501}\U{2501}\U{2501}\U{2501}"

  function SignalMessage(signal: int): string
  {
    RULE + "\nProcess terminated by signal " + IntToString(signal) + "\nSignal: " + SignalName(signal) + "\n" + RULE
  }

  function ExitMessage(code: int): string
  {
    "Process exited with code: " + IntToString(code)
  }

  /** The log output of a program run. The two reader tasks run
      concurrently, so only the order within each stream is determined;
      the engine's own entries come after both. */
  datatype ProgramLogs = ProgramLogs(stdoutEntries: seq<LogEntry>, stderrEntries: seq<LogEntry>, systemEntries: seq<LogEntry>)

  function ProgramFaultMessage(f: Fault, path: string): string
  {
    match f
    case SpawnFault => "Failed to spawn executable: " + path
    case CaptureStdoutFault => "Failed to capture stdout"
    case CaptureStderrFault => "Failed to capture stderr"
    case WaitFault => "Failed to wait for child process"
    case StdoutJoinFault => "stdout task panicked"
    case StderrJoinFault => "stderr task panicked"
  }

  /** The reader tasks exist once both pipes were captured. */
  predicate ReadersStarted(f: Fault)
  {
    f == WaitFault || AfterWait(f)
  }

  /** `execute_program`. A signal gives "Signal n (name)" and an Error
      entry numbered 999999; a nonzero exit code gives a Warning entry
      numbered 999998 and "Exit code N" unless a reason is already set.
      Exactly one Finished follows, then ProcessFinished when there is a
      pid. `linesSeen` of a fault are the stdout lines read before it. */
  function ExecuteProgram(info: ExecutableInfo, outcome: Outcome): (r: (Result<ExecutionResult, string>, seq<StepUpdate>, ProgramLogs))
    ensures outcome.Faulted? <==> r.0.Err?
    ensures outcome.Faulted? ==> r.0.error == ProgramFaultMessage(outcome.fault, info.path)
    ensures outcome.Completed? ==> var res := r.0.value;
      && (res.success <==> StatusSuccess(outcome.status))
      && res.exitCode == StatusCode(outcome.status)
      && res.stdout == [] && res.stderr == []
      && (outcome.status.Signaled? ==> res.failureReason == Some(SignalReason(outcome.status.signal)))
      && (outcome.status.Exited? && outcome.status.code != 0 ==> res.failureReason == Some(ExitCodeReason(outcome.status.code)))
      && (res.success ==> res.failureReason == None)
    ensures outcome.Completed? ==>
      && r.2.stdoutEntries == StdoutEntries(outcome.stdout)
      && r.2.stderrEntries == StderrEntries(outcome.stderr)
    ensures outcome.Completed? ==> var pidEvents := if outcome.pid.Some? then [ProcessStarted(outcome.pid.value)] else [];
      r.1 == pidEvents + MetricUpdates(outcome.stdout) + [Finished(r.0.value)]
        + (if outcome.pid.Some? then [ProcessFinished(outcome.pid.value)] else [])
    ensures outcome.Faulted? ==> forall i :: 0 <= i < |r.1| ==> !r.1[i].Finished? && !r.1[i].ProcessFinished?
    ensures outcome.Faulted? && ReadersStarted(outcome.fault) ==>
      && r.2.stdoutEntries == StdoutEntries(outcome.linesSeen)
      && r.2.stderrEntries == StderrEntries(outcome.errLinesSeen)
    ensures outcome.Faulted? && !ReadersStarted(outcome.fault) ==>
      r.2.stdoutEntries == [] && r.2.stderrEntries == [] && forall i :: 0 <= i < |r.1| ==> !r.1[i].Metric?
    ensures outcome.Faulted? ==> r.2.systemEntries == []
    ensures outcome.Faulted? ==>
      var started := if outcome.faultPid.Some? && AfterSpawn(outcome.fault) then [ProcessStarted(outcome.faultPid.value)] else [];
      r.1 == started + MetricUpdates(if ReadersStarted(outcome.fault) then outcome.linesSeen else [])
  {
    match outcome
    case Faulted(pid, fault, seen, errSeen) =>
      var started := if pid.Some? && AfterSpawn(fault) then [ProcessStarted(pid.value)] else [];
      var read := if ReadersStarted(fault) then seen else [];
      var errRead := if ReadersStarted(fault) then errSeen else [];
      (Err(ProgramFaultMessage(fault, info.path)), started + MetricUpdates(read),
       ProgramLogs(StdoutEntries(read), StderrEntries(errRead), []))
    case Completed(pid, status, out, err, duration) =>
      var code := StatusCode(status);
      var signalPart := if status.Signaled? then Some(status.signal) else None;
      var reason0: Option<string> := if signalPart.Some? then Some(SignalReason(signalPart.value)) else None;
      var signalEntries := if signalPart.Some? then
          [NewEntry(Error, SignalMessage(signalPart.value), SignalMessage(signalPart.value), SYSTEM_COMPONENT, SIGNAL_ENTRY_INDEX)]
        else [];
      var nonzero := code.Some? && code.value != 0;
      var reason := if nonzero && reason0.None? then Some(ExitCodeReason(code.value)) else reason0;
      var exitEntries := if nonzero then
          [NewEntry(Warning, ExitMessage(code.value), ExitMessage(code.value), SYSTEM_COMPONENT, EXIT_ENTRY_INDEX)]
        else [];
      var result := ExecutionResult(StatusSuccess(status), duration, [], [], code, reason);
      var pidStart := if pid.Some? then [ProcessStarted(pid.value)] else [];
      var pidEnd := if pid.Some? then [ProcessFinished(pid.value)] else [];
      (Ok(result), pidStart + MetricUpdates(out) + [Finished(result)] + pidEnd,
       ProgramLogs(StdoutEntries(out), StderrEntries(err), signalEntries + exitEntries))
  }

  /** A completed run emits exactly one Finished, and one ProcessFinished
      exactly when a pid was reported, as the last update. */
  lemma ProgramFinishesOnce(info: ExecutableInfo, outcome: Outcome)
    requires outcome.Completed?
    ensures var u := ExecuteProgram(info, outcome).1;
      && Common.Count(FinishedFlags(u), true) == 1
      && (outcome.pid.Some? <==> |u| > 0 && u[|u| - 1].ProcessFinished?)
  {
    var r := ExecuteProgram(info, outcome);
    var pidStart := if outcome.pid.Some? then [ProcessStarted(outcome.pid.value)] else [];
    var pidEnd := if outcome.pid.Some? then [ProcessFinished(outcome.pid.value)] else [];
    OneFinished(pidStart + MetricUpdates(outcome.stdout), r.0.value, pidEnd);
  }

  /** A completed run reports the metrics it read without their
      visualization suffix: the line "[IGNIS_METRIC] render:fps=60:gauge"
      becomes a metric fps=60 with none. */
  lemma ProgramDropsSuffix(info: ExecutableInfo, outcome: Outcome)
    requires outcome.Completed? && outcome.stdout == ["[IGNIS_METRIC] render:fps=60:gauge"]
    ensures Metric(RuntimeMetric("fps", "60", "render", None)) in ExecuteProgram(info, outcome).1
    ensures forall u :: u in ExecuteProgram(info, outcome).1 && u.Metric? ==> u.metric.explicitVisualization == None
  {
    var r := ExecuteProgram(info, outcome);
    var pidStart := if outcome.pid.Some? then [ProcessStarted(outcome.pid.value)] else [];
    var tail := [Finished(r.0.value)] + (if outcome.pid.Some? then [ProcessFinished(outcome.pid.value)] else []);
    assert r.1 == pidStart + MetricUpdates(outcome.stdout) + tail;
    SuffixLineUpdate();
    UpdateInConcat(pidStart, MetricUpdates(outcome.stdout), tail);
    ProgramMetricsUnvisualized(info, outcome);
  }

  /** No metric a completed run reports carries a visualization. */
  lemma ProgramMetricsUnvisualized(info: ExecutableInfo, outcome: Outcome)
    requires outcome.Completed?
    ensures forall u :: u in ExecuteProgram(info, outcome).1 && u.Metric? ==> u.metric.explicitVisualization == None
  {
    var r := ExecuteProgram(info, outcome);
    var pidStart := if outcome.pid.Some? then [ProcessStarted(outcome.pid.value)] else [];
    var tail := [Finished(r.0.value)] + (if outcome.pid.Some? then [ProcessFinished(outcome.pid.value)] else []);
    assert r.1 == pidStart + MetricUpdates(outcome.stdout) + tail;
    MetricsInConcat(pidStart, MetricUpdates(outcome.stdout), tail);
  }

  lemma SuffixLineUpdate()
    ensures MetricUpdates(["[IGNIS_METRIC] render:fps=60:gauge"]) == [Metric(RuntimeMetric("fps", "60", "render", None))]
  {
    var line := "[IGNIS_METRIC] render:fps=60:gauge";
    VisualizationSuffixIgnored();
    assert [line][..0] == [];
    assert MetricLines([line]) == [line];
  }

  lemma MetricsInConcat(a: seq<StepUpdate>, b: seq<StepUpdate>, c: seq<StepUpdate>)
    requires forall i :: 0 <= i < |a| ==> !a[i].Metric?
    requires forall i :: 0 <= i < |b| ==> b[i].Metric? ==> b[i].metric.explicitVisualization == None
    requires forall i :: 0 <= i < |c| ==> !c[i].Metric?
    ensures forall u :: u in a + b + c && u.Metric? ==> u.metric.explicitVisualization == None
  {
    forall u | u in a + b + c && u.Metric?
      ensures u.metric.explicitVisualization == None
    {
      assert u in a || u in b || u in c;
    }
  }

  lemma UpdateInConcat(a: seq<StepUpdate>, b: seq<StepUpdate>, c: seq<StepUpdate>)
    requires |b| > 0
    ensures b[0] in a + b + c
  {
    assert (a + b + c)[|a|] == b[0];
  }

  lemma OneFinished(a: seq<StepUpdate>, res: ExecutionResult, b: seq<StepUpdate>)
    requires forall i :: 0 <= i < |a| ==> !a[i].Finished?
    requires forall i :: 0 <= i < |b| ==> !b[i].Finished?
    ensures Common.Count(FinishedFlags(a + [Finished(res)] + b), true) == 1
  {
    FinishedFlagsAppend(a + [Finished(res)], b);
    FinishedFlagsAppend(a, [Finished(res)]);
    NoFinishedFlags(a);
    NoFinishedFlags(b);
    CountAppend(FinishedFlags(a), FinishedFlags([Finished(res)]), true);
    CountAppend(FinishedFlags(a + [Finished(res)]), FinishedFlags(b), true);
    assert FinishedFlags([Finished(res)]) == [true];
  }

  /** Which updates are `Finished`. */
  function FinishedFlags(u: seq<StepUpdate>): (fs: seq<bool>)
    ensures |fs| == |u| && forall i :: 0 <= i < |u| ==> fs[i] == u[i].Finished?
  {
    seq(|u|, i requires 0 <= i < |u| => u[i].Finished?)
  }

  lemma FinishedFlagsAppend(a: seq<StepUpdate>, b: seq<StepUpdate>)
    ensures FinishedFlags(a + b) == FinishedFlags(a) + FinishedFlags(b)
  {
  }

  lemma {:induction false} NoFinishedFlags(u: seq<StepUpdate>)
    requires forall i :: 0 <= i < |u| ==> !u[i].Finished?
    ensures Common.Count(FinishedFlags(u), true) == 0
  {
    var fs := FinishedFlags(u);
    if |fs| > 0 {
      NoFinishedFlags(u[1..]);
      assert FinishedFlags(u[1..]) == fs[1..];
    }
  }

  /** The numbering of the two output streams never collides, and the
      engine's own entries sit above both while stdout stays below 100000
      lines. */
  lemma EntryIndicesDistinct(out: seq<string>, err: seq<string>)
    requires |PlainLines(out)| <= STDERR_BASE_INDEX
    requires |err| < EXIT_ENTRY_INDEX - STDERR_BASE_INDEX
    ensures forall i, j :: 0 <= i < |StdoutEntries(out)| && 0 <= j < |StderrEntries(err)| ==>
      StdoutEntries(out)[i].index < StderrEntries(err)[j].index < EXIT_ENTRY_INDEX
  {
    forall i, j | 0 <= i < |StdoutEntries(out)| && 0 <= j < |StderrEntries(err)|
      ensures StdoutEntries(out)[i].index < StderrEntries(err)[j].index < EXIT_ENTRY_INDEX
    {
      StdoutEntryIndex(out, i);
      StderrEntryIndex(err, j);
    }
  }

  lemma StdoutEntryIndex(out: seq<string>, i: nat)
    requires i < |StdoutEntries(out)|
    ensures StdoutEntries(out)[i].index == i && i < |PlainLines(out)|
  {
    assert StdoutEntries(out)[i] == NewEntry(Info, PlainLines(out)[i], PlainLines(out)[i], EXEC_COMPONENT, i);
  }

  lemma StderrEntryIndex(err: seq<string>, j: nat)
    requires j < |StderrEntries(err)|
    ensures StderrEntries(err)[j].index == STDERR_BASE_INDEX + j && j < |err|
  {
    assert StderrEntries(err)[j] == NewEntry(Error, err[j], err[j], EXEC_COMPONENT, STDERR_BASE_INDEX + j);
  }
}
