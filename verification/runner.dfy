/**
  The bounded process runner `executeAuggieCli` (lines 246-299): it quotes
  the last argument, spawns `auggie`, accumulates the two output streams
  chunk by chunk, and ends in exactly one of three ways: the process closes
  (an outcome record), the timer fires (a timeout error), or the process
  cannot be started (a start-up error).

  The child process itself is not modelled. What it does is an input: the
  ordered trace of chunks it delivers on its two streams before the run
  ends, and how the run ends.
 */
module Runner {
  import opened Wrappers
  import opened Text
  import Quoting

  /** The command the node spawns. */
  const Command := "auggie"

  /** The error text of a failed run that wrote nothing to its error stream. */
  const NoErrorOutput := "Process failed with no error output"

  /** One `data` callback: a chunk delivered on standard output or standard
      error. */
  datatype Event = StdoutData(chunk: string) | StderrData(chunk: string)

  /** How a run ends: the `close` callback with its exit code (`None` for
      JavaScript's `null`, a process ended by a signal), the timer, or the
      `error` callback with the system error's message. */
  datatype Termination = Closed(code: Option<int>) | TimerFired | SpawnFailed(message: string)

  /** What the child process does, as seen by the runner. */
  datatype ProcessRun = ProcessRun(events: seq<Event>, end: Termination)

  /** The arguments `spawn` is called with. */
  datatype SpawnRequest = SpawnRequest(command: string, args: seq<string>, cwd: string)

  /** The record a closed run resolves with. */
  datatype Outcome = Outcome(output: string, success: bool, exitCode: int, error: Option<string>)

  /** The standard-output chunks of a trace, concatenated in arrival order. */
  function StdoutOf(trace: seq<Event>): string {
    if trace == [] then []
    else
      var last := trace[|trace| - 1];
      StdoutOf(trace[..|trace| - 1]) + (if last.StdoutData? then last.chunk else [])
  }

  /** The standard-error chunks of a trace, concatenated in arrival order. */
  function StderrOf(trace: seq<Event>): string {
    if trace == [] then []
    else
      var last := trace[|trace| - 1];
      StderrOf(trace[..|trace| - 1]) + (if last.StderrData? then last.chunk else [])
  }

  /** Accumulation is a fold: a trace cut in two accumulates on standard
      output to the accumulations of its parts. */
  lemma {:induction false} StdoutSplits(a: seq<Event>, b: seq<Event>)
    ensures StdoutOf(a + b) == StdoutOf(a) + StdoutOf(b)
    decreases |b|
  {
    if b == [] {
      assert a + b == a;
    } else {
      var n := |b| - 1;
      assert (a + b)[..|a + b| - 1] == a + b[..n];
      assert (a + b)[|a + b| - 1] == b[n];
      StdoutSplits(a, b[..n]);
    }
  }

  /** The same on standard error. */
  lemma {:induction false} StderrSplits(a: seq<Event>, b: seq<Event>)
    ensures StderrOf(a + b) == StderrOf(a) + StderrOf(b)
    decreases |b|
  {
    if b == [] {
      assert a + b == a;
    } else {
      var n := |b| - 1;
      assert (a + b)[..|a + b| - 1] == a + b[..n];
      assert (a + b)[|a + b| - 1] == b[n];
      StderrSplits(a, b[..n]);
    }
  }

  /** Chunks of one stream never reach the other stream's accumulator. */
  lemma StreamsAreIndependent(trace: seq<Event>, chunk: string)
    ensures StdoutOf(trace + [StderrData(chunk)]) == StdoutOf(trace)
    ensures StderrOf(trace + [StdoutData(chunk)]) == StderrOf(trace)
  {
    assert (trace + [StderrData(chunk)])[..|trace|] == trace;
    assert (trace + [StdoutData(chunk)])[..|trace|] == trace;
  }

  /** The two accumulators of one run (lines 250-251), grown by the stream
      callbacks (lines 269-282). */
  class Capture {
    var output: string
    var errorOutput: string

    constructor ()
      ensures output == [] && errorOutput == []
    {
      output := [];
      errorOutput := [];
    }

    /** The standard-output `data` callback (line 271). */
    method OnStdout(chunk: string)
      modifies this
      ensures output == old(output) + chunk
      ensures errorOutput == old(errorOutput)
    {
      output := output + chunk;
    }

    /** The standard-error `data` callback (line 278). */
    method OnStderr(chunk: string)
      modifies this
      ensures errorOutput == old(errorOutput) + chunk
      ensures output == old(output)
    {
      errorOutput := errorOutput + chunk;
    }
  }

  /** Feeds a trace of chunks to a fresh pair of accumulators, in order, and
      returns what they hold at the end. */
  method Accumulate(trace: seq<Event>) returns (output: string, errorOutput: string)
    ensures output == StdoutOf(trace)
    ensures errorOutput == StderrOf(trace)
  {
    var capture := new Capture();
    var i := 0;
    while i < |trace|
      invariant 0 <= i <= |trace|
      invariant capture.output == StdoutOf(trace[..i])
      invariant capture.errorOutput == StderrOf(trace[..i])
    {
      assert trace[..i + 1][..i] == trace[..i];
      match trace[i] {
        case StdoutData(chunk) => capture.OnStdout(chunk);
        case StderrData(chunk) => capture.OnStderr(chunk);
      }
      i := i + 1;
    }
    assert trace[..|trace|] == trace;
    output, errorOutput := capture.output, capture.errorOutput;
  }

  /** The `close` callback's record (lines 285-292). */
  function MapOutcome(code: Option<int>, stdout: string, stderr: string): (o: Outcome)
    ensures o.success <==> code == Some(0)
    ensures o.output == (if stdout != [] then stdout else stderr)
    ensures o.error.None? <==> o.success
    ensures !o.success ==> o.error == Some(if stderr != [] then stderr else NoErrorOutput)
    ensures o.error.Some? ==> o.error.value != []
    ensures o.exitCode == (if code.Some? then code.value else 0)
  {
    var success := code == Some(0);
    Outcome(
      if stdout != [] then stdout else stderr,
      success,
      match code { case Some(c) => c case None => 0 },
      if success then None else Some(if stderr != [] then stderr else NoErrorOutput))
  }

  /** For a process that reports an exit code, `success` and `exitCode == 0`
      agree. */
  lemma SuccessIffExitCodeZero(c: int, stdout: string, stderr: string)
    ensures MapOutcome(Some(c), stdout, stderr).success <==> MapOutcome(Some(c), stdout, stderr).exitCode == 0
  {
  }

  /** A process ended by a signal has a `null` exit code: it is reported as
      failed and yet with exit code 0, so the agreement above does not hold
      for every outcome. */
  lemma NullCodeFailsWithExitCodeZero(stdout: string, stderr: string)
    ensures !MapOutcome(None, stdout, stderr).success
    ensures MapOutcome(None, stdout, stderr).exitCode == 0
  {
  }

  /** The message of the timer's rejection (line 267); exact for timeouts
      below 2^53, as `NatToString` is. */
  function TimeoutMessage(timeout: nat): string {
    "Auggie CLI execution timed out after " + NatToString(timeout) + " seconds"
  }

  /** The message of the `error` callback's rejection (line 296). */
  function SpawnFailureMessage(message: string): string {
    "Failed to start Auggie CLI: " + message
  }

  /** What the promise of `executeAuggieCli` settles to: resolved with the
      outcome record on `close`, rejected with an error message on the
      timer or on a start-up failure. */
  function RunResult(timeout: nat, run: ProcessRun): Result<Outcome, string> {
    match run.end
    case Closed(code) => Ok(MapOutcome(code, StdoutOf(run.events), StderrOf(run.events)))
    case TimerFired => Err(TimeoutMessage(timeout))
    case SpawnFailed(message) => Err(SpawnFailureMessage(message))
  }

  /** The three ways a run ends exclude one another: only a closed process
      resolves, and the two rejections carry the configured timeout and the
      system error's text respectively. */
  lemma RunResultTerminalStates(timeout: nat, run: ProcessRun)
    ensures RunResult(timeout, run).Ok? <==> run.end.Closed?
    ensures run.end.TimerFired? ==>
      Contains(RunResult(timeout, run).error, NatToString(timeout))
    ensures run.end.SpawnFailed? ==>
      Contains(RunResult(timeout, run).error, run.end.message)
  {
    if run.end.TimerFired? {
      ContainsMiddle("Auggie CLI execution timed out after ", NatToString(timeout), " seconds");
    }
    if run.end.SpawnFailed? {
      ContainsMiddle("Failed to start Auggie CLI: ", run.end.message, []);
      assert SpawnFailureMessage(run.end.message) == "Failed to start Auggie CLI: " + run.end.message + [];
    }
  }

  /** `executeAuggieCli(args, cwd, timeout)`: the spawn it makes, with the
      last argument quoted, and how its promise settles. */
  method ExecuteAuggieCli(args: seq<string>, cwd: string, timeout: nat, run: ProcessRun)
    returns (spawn: SpawnRequest, r: Result<Outcome, string>)
    ensures spawn == SpawnRequest(Command, Quoting.QuotedArgs(args), cwd)
    ensures r == RunResult(timeout, run)
  {
    var processedArgs := Quoting.ProcessArgs(args);
    spawn := SpawnRequest(Command, processedArgs[..], cwd);
    match run.end
    case Closed(code) =>
      var output, errorOutput := Accumulate(run.events);
      r := Ok(MapOutcome(code, output, errorOutput));
    case TimerFired =>
      r := Err(TimeoutMessage(timeout));
    case SpawnFailed(message) =>
      r := Err(SpawnFailureMessage(message));
  }
}
