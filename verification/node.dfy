/**
  The node's `execute` (lines 143-243): for every input item it checks the
  prompt, builds the argument vector and the working directory, runs the
  CLI, and turns the run's result, or the error it throws, into the item's
  reply. With "continue on fail" an error becomes an error reply and the
  loop goes on; without it the first error ends the whole execution.

  The host's parameter lookup is modelled by a `Params` record per item,
  `process.cwd()` by the `fallbackCwd` argument, and each item's child
  process by a `Runner.ProcessRun`.
 */
module Node {
  import opened Wrappers
  import opened Text
  import Quoting
  import Runner

  /** The model the CLI uses when no `--model` flag is given. */
  const DefaultModel := "sonnet-4.5"

  /** The validation error's message (line 156). */
  const PromptRequired := "Prompt is required and cannot be empty"

  /** The message used when the thrown value is not an `Error` (line 219). */
  const UnknownError := "An unknown error occurred"

  /** The node parameters of one item. An absent project path or custom
      argument string is the empty string. */
  datatype Params = Params(
    prompt: string,
    timeout: nat,
    projectPath: string,
    outputMode: string,
    model: string,
    customArgs: string)

  /** The output-mode flag (lines 171-179). */
  function ModeFlag(outputMode: string): seq<string> {
    if outputMode == "print" then ["--print"]
    else if outputMode == "quiet" then ["--quiet"]
    else if outputMode == "compact" then ["--compact"]
    else []
  }

  /** The three known modes select the flag of the same name; any other
      mode adds no flag. */
  lemma ModeFlagNamesMode(outputMode: string)
    ensures outputMode in {"print", "quiet", "compact"} ==> ModeFlag(outputMode) == ["--" + outputMode]
    ensures outputMode !in {"print", "quiet", "compact"} ==> ModeFlag(outputMode) == []
  {
    if outputMode == "print" {
      assert "--" + outputMode == "--print";
    } else if outputMode == "quiet" {
      assert "--" + outputMode == "--quiet";
    } else if outputMode == "compact" {
      assert "--" + outputMode == "--compact";
    }
  }

  /** The test of line 180: a model is named and it is not the default. */
  predicate UsesModel(model: string) {
    model != [] && model != DefaultModel
  }

  /** The model flag pair (lines 180-182). */
  function ModelFlag(model: string): seq<string> {
    if UsesModel(model) then ["--model", model] else []
  }

  /** The custom arguments (lines 183-186): nothing for a blank string,
      otherwise the trimmed string split on runs of white space. The tokens
      are non-empty, hold no white space, and together hold every
      non-white-space character of the input, in order. */
  function CustomTokens(customArgs: string): (tokens: seq<string>)
    ensures tokens == [] <==> IsBlank(customArgs)
    ensures forall t <- tokens :: t != [] && HasNoWhitespace(t)
    ensures Concat(tokens) == NonWhitespace(customArgs)
  {
    var trimmed := Trim(customArgs);
    NonWhitespaceOfTrim(customArgs);
    if trimmed == [] then
      NonWhitespaceOfBlank(customArgs);
      []
    else
      SplitPiecesHaveNoWhitespace(trimmed);
      SplitTrimmedPiecesNonEmpty(trimmed);
      SplitKeepsContent(trimmed);
      Split(trimmed)
  }

  /** The tokens are exactly the words of the custom argument string:
      words separated by any non-empty runs of white space, with any white
      space before the first and after the last, come back as those words,
      in order. */
  lemma CustomTokensOfSeparatedWords(lead: string, words: seq<string>, gaps: seq<string>, trail: string)
    requires |words| >= 1 && |gaps| == |words| - 1
    requires AreWords(words) && AreGaps(gaps)
    requires IsBlank(lead) && IsBlank(trail)
    ensures CustomTokens(lead + JoinWith(words, gaps) + trail) == words
  {
    var x := JoinWith(words, gaps);
    var last := words[|words| - 1];
    assert words[0] in words && last in words;
    JoinWithStartsWithFirst(words, gaps);
    JoinWithEndsWithLast(words, gaps);
    assert x[|x| - 1] == last[|last| - 1];
    TrimOfPadded(lead, x, trail);
    SplitJoinWithRoundTrip(words, gaps);
  }

  /** The argument vector `args` (lines 170-187). */
  function ArgVector(p: Params): seq<string> {
    ModeFlag(p.outputMode) + ModelFlag(p.model) + CustomTokens(p.customArgs) + [p.prompt]
  }

  /** The order of the argument vector: the mode flag first (when the mode
      is one of the three known ones), then `--model m` exactly when a
      non-default model is chosen, then the custom tokens, and the prompt
      always last. */
  lemma ArgVectorLayout(p: Params)
    ensures var a := ArgVector(p);
      |a| >= 1 && a[|a| - 1] == p.prompt
    ensures var a := ArgVector(p);
      p.outputMode in {"print", "quiet", "compact"} ==> a[0] == "--" + p.outputMode
    ensures var a, m := ArgVector(p), if p.outputMode in {"print", "quiet", "compact"} then 1 else 0;
      UsesModel(p.model) ==>
        && |a| == m + 2 + |CustomTokens(p.customArgs)| + 1
        && a[m] == "--model" && a[m + 1] == p.model
        && a[m + 2..|a| - 1] == CustomTokens(p.customArgs)
    ensures var a, m := ArgVector(p), if p.outputMode in {"print", "quiet", "compact"} then 1 else 0;
      !UsesModel(p.model) ==>
        && |a| == m + |CustomTokens(p.customArgs)| + 1
        && a[m..|a| - 1] == CustomTokens(p.customArgs)
  {
    var a := ArgVector(p);
    var mode, model, custom := ModeFlag(p.outputMode), ModelFlag(p.model), CustomTokens(p.customArgs);
    var k := |mode| + |model|;
    assert a == (mode + model) + custom + [p.prompt];
    assert a[k..|a| - 1] == custom;
    ModeFlagNamesMode(p.outputMode);
    if mode != [] {
      assert a[0] == mode[0];
    }
  }


  /** Builds the argument vector by successive pushes, as lines 170-187
      do. */
  method BuildArgs(p: Params) returns (args: seq<string>)
    ensures args == ArgVector(p)
  {
    args := [];
    if p.outputMode == "print" {
      args := args + ["--print"];
    } else if p.outputMode == "quiet" {
      args := args + ["--quiet"];
    } else if p.outputMode == "compact" {
      args := args + ["--compact"];
    }
    assert args == ModeFlag(p.outputMode);
    if p.model != [] && p.model != DefaultModel {
      args := args + ["--model", p.model];
    }
    assert args == ModeFlag(p.outputMode) + ModelFlag(p.model);
    var trimmed := Trim(p.customArgs);
    if trimmed != [] {
      args := args + Split(trimmed);
    }
    assert args == ModeFlag(p.outputMode) + ModelFlag(p.model) + CustomTokens(p.customArgs);
    args := args + [p.prompt];
  }

  /** The working directory (line 188): the trimmed project path, or the
      fallback directory when the path is blank. A chosen path is never
      empty and has no white space at either end. */
  function ChooseCwd(projectPath: string, fallbackCwd: string): (cwd: string)
    ensures IsBlank(projectPath) ==> cwd == fallbackCwd
    ensures !IsBlank(projectPath) ==>
      cwd == Trim(projectPath) && cwd != [] && !IsWhitespace(cwd[0]) && !IsWhitespace(cwd[|cwd| - 1])
  {
    if projectPath != [] && Trim(projectPath) != [] then Trim(projectPath) else fallbackCwd
  }

  /** The command line reported in a reply (line 211). */
  function RenderCommand(args: seq<string>): string {
    Runner.Command + " " + Join(args, " ")
  }

  /** The reported command line shows the prompt as the user wrote it, at
      its very end: it is rendered from the vector before quoting. */
  lemma RenderedCommandEndsWithPrompt(p: Params)
    ensures var c := RenderCommand(ArgVector(p));
      |c| >= |p.prompt| && c[|c| - |p.prompt|..] == p.prompt
  {
    var a := ArgVector(p);
    ArgVectorLayout(p);
    JoinEndsWithLast(a, " ");
    var j := Join(a, " ");
    var c := RenderCommand(a);
    assert c == (Runner.Command + " ") + j;
    assert c[|c| - |j|..] == j;
  }

  /** A value caught by the `catch` block: an `Error` with its message, or
      anything else. */
  datatype Thrown = Error(message: string) | NonError

  /** The kind recorded in an error reply (line 225). */
  datatype ErrorType = Timeout | ExecutionError

  /** `errorMessage` (line 219). */
  function ErrorMessage(e: Thrown): string {
    if e.Error? then e.message else UnknownError
  }

  /** `isTimeout` (line 220): an `Error` whose message contains `timeout`. */
  predicate IsTimeout(e: Thrown) {
    e.Error? && Contains(e.message, "timeout")
  }

  /** `errorType` (line 225). */
  function ErrorTypeOf(e: Thrown): ErrorType {
    if IsTimeout(e) then Timeout else ExecutionError
  }

  /** The user-facing message of a fatal error (lines 233-235). */
  function UserMessage(e: Thrown, timeout: nat): string {
    if IsTimeout(e) then
      "Operation timed out after " + NatToString(timeout) + " seconds. Consider increasing the timeout."
    else
      "Auggie CLI execution failed: " + ErrorMessage(e)
  }

  /** One element of `returnData`: the reply of a closed run, successful
      or not (lines 206-216), or an error reply (lines 222-230). */
  datatype Reply =
    | RunReply(result: string, success: bool, command: string, exitCode: int, error: Option<string>, pairedItem: nat)
    | ErrorReply(errorMessage: string, errorType: ErrorType, itemIndex: nat, pairedItem: nat)

  /** The error that ends the execution (lines 236-239). */
  datatype NodeError = NodeError(message: string, description: string, itemIndex: nat)

  /** The `catch` block (lines 218-239): an error reply with
      "continue on fail", otherwise a fatal error. */
  function Catch(e: Thrown, timeout: nat, itemIndex: nat, continueOnFail: bool): Result<Reply, NodeError> {
    if continueOnFail then Ok(ErrorReply(ErrorMessage(e), ErrorTypeOf(e), itemIndex, itemIndex))
    else Err(NodeError(UserMessage(e, timeout), ErrorMessage(e), itemIndex))
  }

  /** What the `catch` block makes of a thrown value. With "continue on
      fail" it is an error reply for the item, whose type is `Timeout`
      exactly when the message mentions `timeout`. Without it the value
      becomes the fatal error of the item, described by the raw message;
      its user-facing message names the configured timeout for a timeout
      and ends with the raw message otherwise. */
  lemma CatchOutcomes(e: Thrown, timeout: nat, itemIndex: nat, continueOnFail: bool)
    ensures var r := Catch(e, timeout, itemIndex, continueOnFail);
      continueOnFail ==>
        && r.Ok? && r.value.ErrorReply?
        && r.value.errorMessage == ErrorMessage(e)
        && (r.value.errorType == Timeout <==> IsTimeout(e))
        && r.value.itemIndex == itemIndex && r.value.pairedItem == itemIndex
    ensures var r := Catch(e, timeout, itemIndex, continueOnFail);
      !continueOnFail ==>
        && r.Err? && r.error.description == ErrorMessage(e) && r.error.itemIndex == itemIndex
        && (IsTimeout(e) ==> Contains(r.error.message, NatToString(timeout)))
        && (!IsTimeout(e) ==>
              var m := ErrorMessage(e);
              |r.error.message| >= |m| && r.error.message[|r.error.message| - |m|..] == m)
    ensures e.NonError? ==> ErrorMessage(e) == UnknownError && !IsTimeout(e)
  {
    if !continueOnFail {
      if IsTimeout(e) {
        ContainsMiddle("Operation timed out after ", NatToString(timeout), " seconds. Consider increasing the timeout.");
      } else {
        var u := UserMessage(e, timeout);
        assert u == "Auggie CLI execution failed: " + ErrorMessage(e);
        assert u[|u| - |ErrorMessage(e)|..] == ErrorMessage(e);
      }
    }
  }

  /** The reply built from a closed run's record (lines 206-216), with
      `result.error || null` for the error field. */
  function SuccessReply(o: Runner.Outcome, args: seq<string>, itemIndex: nat): Reply {
    RunReply(o.output, o.success, RenderCommand(args), o.exitCode,
            if o.error.Some? && o.error.value != [] then o.error else None, itemIndex)
  }

  /** What one item contributes: the spawn it makes, if any, and its reply
      or fatal error. */
  datatype ItemStep = ItemStep(spawn: Option<Runner.SpawnRequest>, result: Result<Reply, NodeError>)

  /** The body of the loop of line 146 for one item. */
  function ItemSpec(p: Params, run: Runner.ProcessRun, itemIndex: nat, continueOnFail: bool, fallbackCwd: string): ItemStep {
    if p.prompt == [] || Trim(p.prompt) == [] then
      ItemStep(None, Catch(Error(PromptRequired), p.timeout, itemIndex, continueOnFail))
    else
      var args := ArgVector(p);
      var spawn := Runner.SpawnRequest(Runner.Command, Quoting.QuotedArgs(args), ChooseCwd(p.projectPath, fallbackCwd));
      match Runner.RunResult(p.timeout, run)
      case Ok(o) => ItemStep(Some(spawn), Ok(SuccessReply(o, args, itemIndex)))
      case Err(message) => ItemStep(Some(spawn), Catch(Error(message), p.timeout, itemIndex, continueOnFail))
  }

  /** A blank prompt is rejected before any process is spawned; any other
      prompt spawns `auggie` once, with the quoted vector in the chosen
      directory, and the spawned last argument reads back as the prompt. */
  lemma ItemSpawnsIffPromptGiven(p: Params, run: Runner.ProcessRun, itemIndex: nat, continueOnFail: bool, fallbackCwd: string)
    ensures var step := ItemSpec(p, run, itemIndex, continueOnFail, fallbackCwd);
      step.spawn.None? <==> IsBlank(p.prompt)
    ensures var step := ItemSpec(p, run, itemIndex, continueOnFail, fallbackCwd);
      step.spawn.Some? ==>
        && step.spawn.value.args == Quoting.QuotedArgs(ArgVector(p))
        && step.spawn.value.cwd == ChooseCwd(p.projectPath, fallbackCwd)
        && var last := step.spawn.value.args[|step.spawn.value.args| - 1];
           last == p.prompt || Quoting.Unquote(last) == Some(p.prompt)
    ensures IsBlank(p.prompt) ==>
      ItemSpec(p, run, itemIndex, continueOnFail, fallbackCwd).result
        == Catch(Error(PromptRequired), p.timeout, itemIndex, continueOnFail)
  {
    var a := ArgVector(p);
    assert |a| >= 1 && a[|a| - 1] == p.prompt by {
      ArgVectorLayout(p);
    }
    var q := Quoting.QuotedArgs(a);
    assert q[|q| - 1] == p.prompt || Quoting.Unquote(q[|q| - 1]) == Some(p.prompt);
  }

  /** A closed run's record reaches the reply unchanged; in particular its
      error text is never dropped by `|| null`. */
  lemma SuccessReplyKeepsOutcome(o: Runner.Outcome, code: Option<int>, stdout: string, stderr: string, args: seq<string>, itemIndex: nat)
    requires o == Runner.MapOutcome(code, stdout, stderr)
    ensures SuccessReply(o, args, itemIndex)
      == RunReply(o.output, o.success, RenderCommand(args), o.exitCode, o.error, itemIndex)
  {
  }

  lemma PromptIsRequiredLacksTimeout()
    ensures !Contains("Prompt is required", "timeout")
  {
    var w := "timeout";
    MissingCharNotContained("Prompt", w, 'i');
    MissingCharNotContained("is required", w, 'm');
    ContainsAcrossSeparator("Prompt", " ", "is required", w);
    assert "Prompt is required" == "Prompt" + " " + "is required";
  }

  lemma PromptRequiredLacksTimeout()
    ensures !Contains(PromptRequired, "timeout")
  {
    var w := "timeout";
    var head, tail := "Prompt is required", "and cannot be empty";
    PromptIsRequiredLacksTimeout();
    MissingCharNotContained(tail, w, 'i');
    ContainsAcrossSeparator(head, " ", tail, w);
    assert PromptRequired == head + " " + tail;
  }

  /** The validation error passes through the same `catch` and is reported
      as an execution error. */
  lemma ValidationErrorIsExecutionError(timeout: nat)
    ensures ErrorTypeOf(Error(PromptRequired)) == ExecutionError
    ensures UserMessage(Error(PromptRequired), timeout) == "Auggie CLI execution failed: " + PromptRequired
  {
    PromptRequiredLacksTimeout();
  }

  lemma TimedOutAfterLacksTimeout()
    ensures !Contains("timed out after ", "timeout")
  {
    var w := "timeout";
    MissingCharNotContained("timed", w, 'u');
    MissingCharNotContained("out after ", w, 'i');
    ContainsAcrossSeparator("timed", " ", "out after ", w);
    assert "timed out after " == "timed" + " " + "out after ";
  }

  lemma TimeoutPrefixLacksTimeout()
    ensures !Contains("Auggie CLI execution timed out after ", "timeout")
  {
    var w := "timeout";
    var head, tail := "Auggie CLI execution", "timed out after ";
    MissingCharNotContained(head, w, 'm');
    TimedOutAfterLacksTimeout();
    ContainsAcrossSeparator(head, " ", tail, w);
    assert "Auggie CLI execution timed out after " == head + " " + tail;
  }

  /** The runner's own timeout message says "timed out", not "timeout", so
      a run stopped by the timer is classified as an execution error and
      never gets the "Consider increasing the timeout" message. */
  lemma RunnerTimeoutIsExecutionError(timeout: nat)
    ensures !IsTimeout(Error(Runner.TimeoutMessage(timeout)))
    ensures ErrorTypeOf(Error(Runner.TimeoutMessage(timeout))) == ExecutionError
    ensures UserMessage(Error(Runner.TimeoutMessage(timeout)), timeout)
      == "Auggie CLI execution failed: " + Runner.TimeoutMessage(timeout)
  {
    var w := "timeout";
    TimeoutPrefixLacksTimeout();
    MissingCharNotContained(" seconds", w, 'i');
    assert forall y | 0 <= y < |w| :: w[y] > '9';
    ContainsAcrossSeparator("Auggie CLI execution timed out after ", NatToString(timeout), " seconds", w);
  }

  lemma SpawnPrefixLacksTimeout()
    ensures !Contains("Failed to start Auggie CLI:", "timeout")
  {
    var w := "timeout";
    var head, tail := "Failed", "to start Auggie CLI:";
    MissingCharNotContained(head, w, 'm');
    MissingCharNotContained(tail, w, 'm');
    ContainsAcrossSeparator(head, " ", tail, w);
    assert "Failed to start Auggie CLI:" == head + " " + tail;
  }

  /** An error from a process that failed to start counts as a timeout
      exactly when the system's message contains `timeout`. */
  lemma SpawnFailureTimeoutIff(message: string)
    ensures IsTimeout(Error(Runner.SpawnFailureMessage(message))) <==> Contains(message, "timeout")
  {
    SpawnPrefixLacksTimeout();
    assert Runner.SpawnFailureMessage(message) == "Failed to start Auggie CLI:" + " " + message;
    ContainsAcrossSeparator("Failed to start Auggie CLI:", " ", message, "timeout");
  }

  /** The result of a whole execution: the spawns made, in order, and the
      replies or the error that ended it. */
  datatype Execution = Execution(spawns: seq<Runner.SpawnRequest>, result: Result<seq<Reply>, NodeError>)

  /** What each item contributes, in item order. */
  function Steps(items: seq<Params>, runs: seq<Runner.ProcessRun>, continueOnFail: bool, fallbackCwd: string): seq<ItemStep>
    requires |runs| == |items|
  {
    seq(|items|, i requires 0 <= i < |items| => ItemSpec(items[i], runs[i], i, continueOnFail, fallbackCwd))
  }

  /** One turn of the loop of line 146: an execution already ended by an
      error stays as it is; otherwise the step's spawn is recorded and its
      reply pushed, or its fatal error ends the execution. */
  function Extend(before: Execution, step: ItemStep): Execution {
    if before.result.Err? then before
    else
      var spawns := before.spawns + (if step.spawn.Some? then [step.spawn.value] else []);
      match step.result
      case Ok(reply) => Execution(spawns, Ok(before.result.value + [reply]))
      case Err(e) => Execution(spawns, Err(e))
  }

  /** The loop of line 146 over a sequence of item steps. */
  function Combine(steps: seq<ItemStep>): Execution
    decreases |steps|
  {
    if steps == [] then Execution([], Ok([]))
    else Extend(Combine(steps[..|steps| - 1]), steps[|steps| - 1])
  }

  lemma CombinePrefix(steps: seq<ItemStep>, i: nat)
    requires i < |steps|
    ensures Combine(steps[..i + 1]) == Extend(Combine(steps[..i]), steps[i])
  {
    assert steps[..i + 1][..i] == steps[..i];
  }

  /** One turn of the loop over a prefix that has not failed: the step's
      spawn is recorded, and its reply is pushed or its error is final. */
  lemma CombineStep(steps: seq<ItemStep>, i: nat, spawns: seq<Runner.SpawnRequest>, returnData: seq<Reply>)
    requires i < |steps| && Combine(steps[..i]) == Execution(spawns, Ok(returnData))
    ensures var spawned := spawns + (if steps[i].spawn.Some? then [steps[i].spawn.value] else []);
      steps[i].result.Ok? ==> Combine(steps[..i + 1]) == Execution(spawned, Ok(returnData + [steps[i].result.value]))
    ensures var spawned := spawns + (if steps[i].spawn.Some? then [steps[i].spawn.value] else []);
      steps[i].result.Err? ==> Combine(steps) == Execution(spawned, Err(steps[i].result.error))
  {
    CombinePrefix(steps, i);
    if steps[i].result.Err? {
      CombineStopsAtError(steps, i + 1);
    }
  }

  /** The whole execution of `execute()` over the input items. */
  function ExecuteSpec(items: seq<Params>, runs: seq<Runner.ProcessRun>, continueOnFail: bool, fallbackCwd: string): Execution
    requires |runs| == |items|
  {
    Combine(Steps(items, runs, continueOnFail, fallbackCwd))
  }

  /** Once a step has ended the execution, later steps change nothing. */
  lemma {:induction false} CombineStopsAtError(steps: seq<ItemStep>, k: nat)
    requires k <= |steps|
    requires Combine(steps[..k]).result.Err?
    ensures Combine(steps) == Combine(steps[..k])
    decreases |steps|
  {
    if k < |steps| {
      var n := |steps| - 1;
      assert steps[..n][..k] == steps[..k];
      CombineStopsAtError(steps[..n], k);
    } else {
      assert steps[..k] == steps;
    }
  }

  /** The execution succeeds exactly when every step succeeds, and then its
      replies are the steps' replies in order; otherwise its error is that
      of the first failing step. */
  lemma {:induction false} CombineFailsFast(steps: seq<ItemStep>)
    ensures Combine(steps).result.Ok? <==> forall i | 0 <= i < |steps| :: steps[i].result.Ok?
    ensures var r := Combine(steps).result;
      r.Ok? ==> |r.value| == |steps| && forall i | 0 <= i < |steps| :: r.value[i] == steps[i].result.value
    ensures var r := Combine(steps).result;
      r.Err? ==> exists k | 0 <= k < |steps| ::
        && steps[k].result == Err(r.error)
        && forall i | 0 <= i < k :: steps[i].result.Ok?
    decreases |steps|
  {
    if steps != [] {
      var n := |steps| - 1;
      var prefix := steps[..n];
      CombineFailsFast(prefix);
      assert forall i | 0 <= i < n :: prefix[i] == steps[i];
      var before := Combine(prefix);
      if before.result.Err? {
        var k :| 0 <= k < n && prefix[k].result == Err(before.result.error)
          && forall i | 0 <= i < k :: prefix[i].result.Ok?;
        assert steps[k].result == Err(Combine(steps).result.error);
      } else if steps[n].result.Err? {
        assert steps[n].result == Err(Combine(steps).result.error);
      }
    }
  }

  /** An item's reply or fatal error carries the item's own index. */
  lemma ItemSpecIndex(p: Params, run: Runner.ProcessRun, itemIndex: nat, continueOnFail: bool, fallbackCwd: string)
    ensures var r := ItemSpec(p, run, itemIndex, continueOnFail, fallbackCwd).result;
      (r.Ok? ==> r.value.pairedItem == itemIndex) && (r.Err? ==> r.error.itemIndex == itemIndex)
    ensures continueOnFail ==> ItemSpec(p, run, itemIndex, continueOnFail, fallbackCwd).result.Ok?
  {
  }

  /** With "continue on fail" every item gets exactly one reply, in item
      order, paired with its own index. */
  lemma ContinueOnFailAnswersEveryItem(items: seq<Params>, runs: seq<Runner.ProcessRun>, fallbackCwd: string)
    requires |runs| == |items|
    ensures var r := ExecuteSpec(items, runs, true, fallbackCwd).result;
      r.Ok? && |r.value| == |items|
      && forall i | 0 <= i < |items| :: r.value[i].pairedItem == i
  {
    var steps := Steps(items, runs, true, fallbackCwd);
    forall i | 0 <= i < |items|
      ensures steps[i].result.Ok? && steps[i].result.value.pairedItem == i
    {
      ItemSpecIndex(items[i], runs[i], i, true, fallbackCwd);
    }
    CombineFailsFast(steps);
  }

  /** Without "continue on fail" the execution fails exactly when some item
      fails, and the error reported is that of the first failing item;
      every item before it succeeded. */
  lemma FailFastReportsFirstError(items: seq<Params>, runs: seq<Runner.ProcessRun>, fallbackCwd: string)
    requires |runs| == |items|
    ensures var r := ExecuteSpec(items, runs, false, fallbackCwd).result;
      r.Ok? <==> forall i | 0 <= i < |items| :: ItemSpec(items[i], runs[i], i, false, fallbackCwd).result.Ok?
    ensures var r := ExecuteSpec(items, runs, false, fallbackCwd).result;
      r.Err? ==>
        && r.error.itemIndex < |items|
        && ItemSpec(items[r.error.itemIndex], runs[r.error.itemIndex], r.error.itemIndex, false, fallbackCwd).result == Err(r.error)
        && forall i | 0 <= i < r.error.itemIndex :: ItemSpec(items[i], runs[i], i, false, fallbackCwd).result.Ok?
  {
    var steps := Steps(items, runs, false, fallbackCwd);
    assert forall i | 0 <= i < |items| :: steps[i] == ItemSpec(items[i], runs[i], i, false, fallbackCwd);
    CombineFailsFast(steps);
    var r := Combine(steps).result;
    if r.Err? {
      var k :| 0 <= k < |steps| && steps[k].result == Err(r.error)
        && forall i | 0 <= i < k :: steps[i].result.Ok?;
      ItemSpecIndex(items[k], runs[k], k, false, fallbackCwd);
    }
  }

  /** One pass of the loop body (lines 147-240): validate the prompt, build
      the vector, run the process, and either push the success reply or
      hand what was thrown to the `catch` block. */
  method ExecuteItem(p: Params, run: Runner.ProcessRun, itemIndex: nat, continueOnFail: bool, fallbackCwd: string)
    returns (spawn: Option<Runner.SpawnRequest>, result: Result<Reply, NodeError>)
    ensures ItemStep(spawn, result) == ItemSpec(p, run, itemIndex, continueOnFail, fallbackCwd)
  {
    spawn := None;
    var thrown: Thrown;
    if p.prompt == [] || Trim(p.prompt) == [] {
      thrown := Error(PromptRequired);
    } else {
      var args := BuildArgs(p);
      var cwd := ChooseCwd(p.projectPath, fallbackCwd);
      var request, outcome := Runner.ExecuteAuggieCli(args, cwd, p.timeout, run);
      spawn := Some(request);
      match outcome {
        case Ok(o) =>
          result := Ok(SuccessReply(o, args, itemIndex));
          return;
        case Err(message) =>
          thrown := Error(message);
      }
    }
    result := Catch(thrown, p.timeout, itemIndex, continueOnFail);
  }

  /** `execute()` (lines 143-243): the loop over the items, pushing one
      reply per item into `returnData`, or stopping at the first fatal
      error. It also reports the spawns it made. */
  method Execute(items: seq<Params>, runs: seq<Runner.ProcessRun>, continueOnFail: bool, fallbackCwd: string)
    returns (spawns: seq<Runner.SpawnRequest>, r: Result<seq<Reply>, NodeError>)
    requires |runs| == |items|
    ensures Execution(spawns, r) == ExecuteSpec(items, runs, continueOnFail, fallbackCwd)
  {
    ghost var steps := Steps(items, runs, continueOnFail, fallbackCwd);
    var returnData: seq<Reply> := [];
    spawns := [];
    var itemIndex := 0;
    while itemIndex < |items|
      invariant 0 <= itemIndex <= |items|
      invariant Combine(steps[..itemIndex]) == Execution(spawns, Ok(returnData))
    {
      var spawn, result := ExecuteItem(items[itemIndex], runs[itemIndex], itemIndex, continueOnFail, fallbackCwd);
      assert steps[itemIndex] == ItemStep(spawn, result);
      CombineStep(steps, itemIndex, spawns, returnData);
      if spawn.Some? {
        spawns := spawns + [spawn.value];
      }
      match result {
        case Ok(reply) =>
          returnData := returnData + [reply];
        case Err(e) =>
          r := Err(e);
          return;
      }
      itemIndex := itemIndex + 1;
    }
    assert steps[..|steps|] == steps;
    r := Ok(returnData);
  }
}
