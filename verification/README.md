# Auggie CLI node: a verified model of its deterministic core

The Auggie CLI node is an n8n workflow node that runs the `auggie` command
line tool once per input item. This project models, in Dafny, everything
the node does around that one subprocess call:

- it checks that the prompt is not blank and chooses the working
  directory: the trimmed project path, or the process's own directory;
- it builds the argument vector: an output-mode flag, an optional
  `--model m` pair, the custom arguments split on white space, and the
  prompt last; it also renders the command line shown in the reply;
- the runner quotes the last argument when it holds a space and does not
  start with a double quote, escaping its double quotes;
- the runner accumulates the child's standard output and standard error,
  chunk by chunk, and maps the exit code and the two streams to an outcome
  record, or rejects on its timer or on a start-up failure;
- the `catch` block classifies a thrown error as a timeout or an
  execution error, and either records an error reply ("continue on fail")
  or stops the whole execution with a user-facing message.

Files:

- `wrappers.dfy`: `Option` and `Result`.
- `text.dfy`: the JavaScript string operations the node uses (`trim`,
  `includes`, `startsWith`, `split(/\s+/)`, `join`, number rendering).
- `quoting.dfy`: the last-argument quoting and its in-place array update.
- `runner.dfy`: the runner `executeAuggieCli`, with a `Capture` class for
  the two accumulators it grows in its callbacks.
- `node.dfy`: the per-item work of `execute`, the `catch` block, and the
  loop over all items.

The child process is an input. `ProcessRun` holds the chunks it delivers,
in arrival order, and how the run ends: closed with an exit code (`None`
for JavaScript's `null`), stopped by the timer, or failed to start with a
system message. The host's `process.cwd()`, `continueOnFail()` and
parameter lookups are parameters as well.

One would expect a reply's `success` to agree with `exitCode == 0`. For a
process ended by a signal the code gives `success == false` together with
`exitCode == 0`, because its exit code is `null` and `code || 0` turns it
into 0. The model follows the code, and
`Runner.NullCodeFailsWithExitCodeZero` states the case.

The runner's own timeout message says "timed out", and the classifier
looks for the substring `timeout`. So a run stopped by the timer is
reported as an execution error and never gets the "Consider increasing
the timeout" message. The model keeps this behaviour, and
`Node.RunnerTimeoutIsExecutionError` states it.

## Model

| member | source | states |
|---|---|---|
| Text.IsWhitespace | dist/nodes/AuggieCli/AuggieCli.node.js:183-188 | the characters `trim()` strips and `\s` matches: tab, line feed, vertical tab, form feed, carriage return, space, no-break space, the Unicode space separators, the line and paragraph separators and the byte-order mark |
| Text.Split | dist/nodes/AuggieCli/AuggieCli.node.js:184 | `split(/\s+/)`: the maximal runs of non-white-space characters, with an empty first (last) piece when the input starts (ends) with white space; always at least one piece; its content and its break points are stated by `Text.SplitKeepsContent` and `Text.SplitJoinWithRoundTrip` |
| Text.Join | dist/nodes/AuggieCli/AuggieCli.node.js:211 | `join(' ')`: the elements with one separator between neighbours; `Text.JoinEndsWithLast` states that the result ends with the last element |
| Text.JoinIsJoinWith | dist/nodes/AuggieCli/AuggieCli.node.js:211 | `join(sep)` of a non-empty list is the list's words with the same separator in every gap, so every fact about joining with gaps holds for it |
| Text.JoinEndsWithLast | dist/nodes/AuggieCli/AuggieCli.node.js:211 | the joined string ends with the last element, derived from the same fact about joining with gaps |
| Text.Contains | dist/nodes/AuggieCli/AuggieCli.node.js:220 | `includes(w)`: `w` occurs at some position of the string; `Text.ContainsAcrossSeparator` and `Text.MissingCharNotContained` decide it on the node's messages |
| Text.NatToString | dist/nodes/AuggieCli/AuggieCli.node.js:234 | the decimal rendering of a whole number in a template literal: a non-empty string of digits, which reads back as the number (`Text.NatToStringRoundTrip`); this is what `${n}` prints for numbers below 2^53 only |
| Text.Trim | dist/nodes/AuggieCli/AuggieCli.node.js:183-188 | `trim()` returns the infix of its input that lies between the leading and the trailing white space; the result is empty exactly when the input is blank, and otherwise neither starts nor ends with white space |
| Text.NonWhitespaceOfTrim | dist/nodes/AuggieCli/AuggieCli.node.js:184 | trimming removes white space only: the non-white-space characters of a string and of its trim are the same, in the same order |
| Text.SplitKeepsContent | dist/nodes/AuggieCli/AuggieCli.node.js:184 | `split(/\s+/)` loses only white space: its pieces, concatenated, are exactly the input's non-white-space characters |
| Text.SplitPiecesHaveNoWhitespace | dist/nodes/AuggieCli/AuggieCli.node.js:184 | no piece of `split(/\s+/)` holds white space |
| Text.SplitTrimmedPiecesNonEmpty | dist/nodes/AuggieCli/AuggieCli.node.js:184 | splitting a string with no white space at its ends gives no empty piece |
| Text.SplitJoinWithRoundTrip | dist/nodes/AuggieCli/AuggieCli.node.js:184 | splitting non-empty, white-space-free words separated by any non-empty runs of white space gives back exactly those words, in order: the pieces break at the runs and nowhere else |
| Text.TrimOfWindow | dist/nodes/AuggieCli/AuggieCli.node.js:184 | `trim()` of a string that is white space outside a window which starts and ends with a non-white-space character is exactly that window |
| Text.TrimOfPadded | dist/nodes/AuggieCli/AuggieCli.node.js:184 | `trim()` of a string that has no white space at its ends, padded with white space on both sides, is that string |
| Text.ContainsAcrossSeparator | dist/nodes/AuggieCli/AuggieCli.node.js:220 | `includes(w)` on `a + d + b`, with a separator `d` sharing no character with `w`, holds exactly when `w` is in `a` or in `b` |
| Text.NatToStringRoundTrip | dist/nodes/AuggieCli/AuggieCli.node.js:234 | the decimal rendering of the timeout in a template literal reads back as the same number |
| Quoting.Escape | dist/nodes/AuggieCli/AuggieCli.node.js:257 | after `replace(/"/g, '\\"')` every double quote is preceded by a backslash |
| Quoting.UnescapeEscape | dist/nodes/AuggieCli/AuggieCli.node.js:257 | the escaping is reversible: a left-to-right scan turning each `\"` back into `"` restores the original |
| Quoting.Quote | dist/nodes/AuggieCli/AuggieCli.node.js:257 | a quoted argument starts and ends with a double quote |
| Quoting.QuoteRoundTrip | dist/nodes/AuggieCli/AuggieCli.node.js:257 | stripping the outer quotes and unescaping gives back the original argument |
| Quoting.BackslashBeforeClosingQuote | dist/nodes/AuggieCli/AuggieCli.node.js:257 | an argument ending in a backslash is quoted with that backslash right before the closing quote, since only double quotes are escaped |
| Quoting.NeedsQuoting | dist/nodes/AuggieCli/AuggieCli.node.js:256 | the test of line 256: the argument contains the character U+0020 and does not start with a double quote |
| Quoting.QuotedArgs | dist/nodes/AuggieCli/AuggieCli.node.js:252-259 | the spawned vector has the same length and the same elements except the last; it equals the input when the input is empty, its last element holds no space or starts with `"`; otherwise its last element is the quoted form, which reads back as the original |
| Quoting.QuotedArgsIdempotent | dist/nodes/AuggieCli/AuggieCli.node.js:256 | quoting an already quoted vector changes nothing |
| Quoting.QuotedArgsRecoverable | dist/nodes/AuggieCli/AuggieCli.node.js:252-259 | every spawned argument is the built one, or is the last one and unquotes to it |
| Quoting.ProcessArgs | dist/nodes/AuggieCli/AuggieCli.node.js:252-259 | copying the vector into a fresh array and overwriting the last slot in place yields exactly the quoted vector |
| Runner.StdoutOf | dist/nodes/AuggieCli/AuggieCli.node.js:271 | what the standard-output accumulator holds after a trace: its stdout chunks concatenated in arrival order; `Runner.Accumulate` and `Runner.StdoutSplits` state it |
| Runner.StderrOf | dist/nodes/AuggieCli/AuggieCli.node.js:278 | the same for the standard-error accumulator; `Runner.Accumulate` and `Runner.StderrSplits` state it |
| Runner.Capture.constructor | dist/nodes/AuggieCli/AuggieCli.node.js:250-251 | both accumulators start empty |
| Runner.Capture.OnStdout | dist/nodes/AuggieCli/AuggieCli.node.js:271 | a standard-output chunk is appended to `output` and `errorOutput` is unchanged |
| Runner.Capture.OnStderr | dist/nodes/AuggieCli/AuggieCli.node.js:278 | a standard-error chunk is appended to `errorOutput` and `output` is unchanged |
| Runner.Accumulate | dist/nodes/AuggieCli/AuggieCli.node.js:250-282 | feeding a trace to the callbacks in order leaves each accumulator holding the in-order concatenation of its own stream's chunks |
| Runner.StdoutSplits | dist/nodes/AuggieCli/AuggieCli.node.js:271 | standard-output accumulation is a fold: a trace cut in two accumulates to the concatenation of its parts' accumulations |
| Runner.StderrSplits | dist/nodes/AuggieCli/AuggieCli.node.js:278 | the same for standard error |
| Runner.StreamsAreIndependent | dist/nodes/AuggieCli/AuggieCli.node.js:269-282 | a chunk on one stream leaves the other stream's accumulation unchanged |
| Runner.MapOutcome | dist/nodes/AuggieCli/AuggieCli.node.js:283-292 | `success` holds iff the code is 0; `output` is stdout when non-empty, else stderr; `error` is absent iff successful, otherwise stderr or the fixed fallback text, never empty; `exitCode` is the code, or 0 for `null` |
| Runner.SuccessIffExitCodeZero | dist/nodes/AuggieCli/AuggieCli.node.js:285-290 | for a non-null exit code, `success` and `exitCode == 0` agree |
| Runner.NullCodeFailsWithExitCodeZero | dist/nodes/AuggieCli/AuggieCli.node.js:285-290 | a `null` exit code is reported as a failure with exit code 0 |
| Runner.TimeoutMessage | dist/nodes/AuggieCli/AuggieCli.node.js:267 | the timer's rejection message, with the configured timeout in decimal (as JavaScript prints it for timeouts below 2^53); `Runner.RunResultTerminalStates` states that it names the timeout |
| Runner.SpawnFailureMessage | dist/nodes/AuggieCli/AuggieCli.node.js:296 | the start-up rejection message, the system message after a fixed prefix; `Runner.RunResultTerminalStates` states that it carries the system message |
| Runner.RunResult | dist/nodes/AuggieCli/AuggieCli.node.js:265-297 | how the runner's promise settles for a run: the outcome record of a closed run, or the timer's or the start-up rejection; stated by `Runner.RunResultTerminalStates` |
| Runner.RunResultTerminalStates | dist/nodes/AuggieCli/AuggieCli.node.js:265-297 | the runner resolves exactly when the process closes; the timer's rejection names the configured timeout and the start-up rejection carries the system's message |
| Runner.ExecuteAuggieCli | dist/nodes/AuggieCli/AuggieCli.node.js:246-299 | the runner spawns `auggie` with the quoted vector in the given directory, and settles to the outcome record of the closed run or to the matching rejection |
| Node.ModeFlag | dist/nodes/AuggieCli/AuggieCli.node.js:170-179 | the output-mode flag: one flag for `print`, `quiet` and `compact`, none otherwise; stated by `Node.ModeFlagNamesMode` |
| Node.ModelFlag | dist/nodes/AuggieCli/AuggieCli.node.js:180-182 | the pair `--model m` when the model is non-empty and not `sonnet-4.5`, nothing otherwise; stated by `Node.ArgVectorLayout` |
| Node.ArgVector | dist/nodes/AuggieCli/AuggieCli.node.js:170-187 | the argument vector: mode flag, model pair, custom tokens, prompt; its layout is stated by `Node.ArgVectorLayout` |
| Node.RenderCommand | dist/nodes/AuggieCli/AuggieCli.node.js:211 | the reported command line: `auggie`, a space, and the unquoted vector joined with single spaces; `Node.RenderedCommandEndsWithPrompt` states that it ends with the prompt |
| Node.ErrorMessage | dist/nodes/AuggieCli/AuggieCli.node.js:219 | the message of a thrown `Error`, or the fixed unknown-error text for any other value; stated by `Node.CatchOutcomes` |
| Node.IsTimeout | dist/nodes/AuggieCli/AuggieCli.node.js:220 | a thrown `Error` whose message contains the substring `timeout`; decided on the node's own messages by `Node.ValidationErrorIsExecutionError`, `Node.RunnerTimeoutIsExecutionError` and `Node.SpawnFailureTimeoutIff` |
| Node.ErrorTypeOf | dist/nodes/AuggieCli/AuggieCli.node.js:225 | the error reply's type: `timeout` exactly for a timeout, `execution_error` otherwise; stated by `Node.CatchOutcomes` |
| Node.UserMessage | dist/nodes/AuggieCli/AuggieCli.node.js:233-235 | the user-facing message: the timeout advice naming the configured timeout for a timeout, the execution-failed prefix before the raw message otherwise; stated by `Node.CatchOutcomes` |
| Node.Catch | dist/nodes/AuggieCli/AuggieCli.node.js:218-239 | the `catch` block: an error reply for the item with "continue on fail", its fatal error otherwise; stated by `Node.CatchOutcomes` |
| Node.SuccessReply | dist/nodes/AuggieCli/AuggieCli.node.js:206-216 | the reply of a closed run, successful or not: output, success flag, rendered command, exit code, and the error or `null`; stated by `Node.SuccessReplyKeepsOutcome` |
| Node.ItemSpec | dist/nodes/AuggieCli/AuggieCli.node.js:147-240 | what one item contributes: no spawn and the validation error for a blank prompt, otherwise the spawn and the run's reply or the caught error; stated by `Node.ItemSpawnsIffPromptGiven`, `Node.ItemSpecIndex` and `Node.CatchOutcomes` |
| Node.Extend | dist/nodes/AuggieCli/AuggieCli.node.js:206-239 | one turn of the item loop: an execution already ended stays ended; otherwise the item's spawn is recorded and its reply pushed, or its error ends the execution |
| Node.Combine | dist/nodes/AuggieCli/AuggieCli.node.js:146-241 | the item loop over a sequence of item steps; stated by `Node.CombineFailsFast` and `Node.CombineStopsAtError` |
| Node.ExecuteSpec | dist/nodes/AuggieCli/AuggieCli.node.js:143-243 | the whole execution of `execute()`: the loop over every input item's step; stated by `Node.ContinueOnFailAnswersEveryItem` and `Node.FailFastReportsFirstError` |
| Node.ModeFlagNamesMode | dist/nodes/AuggieCli/AuggieCli.node.js:170-179 | the modes `print`, `quiet` and `compact` add the flag of the same name; any other mode adds nothing |
| Node.CustomTokens | dist/nodes/AuggieCli/AuggieCli.node.js:183-186 | blank custom arguments add no token; otherwise the tokens are non-empty, free of white space, and together hold every non-white-space character of the input, in order |
| Node.CustomTokensOfSeparatedWords | dist/nodes/AuggieCli/AuggieCli.node.js:183-186 | custom arguments written as words separated by any runs of white space (spaces, tabs, newlines, several at once), with any white space before and after, become exactly those words, in order |
| Node.ArgVectorLayout | dist/nodes/AuggieCli/AuggieCli.node.js:170-187 | the vector is laid out in full: `--<mode>` first exactly for the modes `print`, `quiet` and `compact`; then `--model m` exactly when `m` is non-empty and not `sonnet-4.5`; then the custom tokens, in order; then the prompt, always last, and nothing else |
| Node.BuildArgs | dist/nodes/AuggieCli/AuggieCli.node.js:170-187 | the successive pushes build exactly that vector |
| Node.ChooseCwd | dist/nodes/AuggieCli/AuggieCli.node.js:188 | a blank project path selects the fallback directory; any other is trimmed, and the result is non-empty with no white space at its ends |
| Node.RenderedCommandEndsWithPrompt | dist/nodes/AuggieCli/AuggieCli.node.js:211 | the reported command line, rendered from the vector before quoting, ends with the prompt exactly as written |
| Node.ItemSpawnsIffPromptGiven | dist/nodes/AuggieCli/AuggieCli.node.js:155-197 | an item spawns a process iff its prompt is not blank; the spawn uses the quoted vector and the chosen directory, and its last argument reads back as the prompt; a blank prompt goes straight to the `catch` block with the validation error |
| Node.SuccessReplyKeepsOutcome | dist/nodes/AuggieCli/AuggieCli.node.js:206-216 | the success reply carries the outcome's output, success flag, exit code and error unchanged, with the rendered command |
| Node.CatchOutcomes | dist/nodes/AuggieCli/AuggieCli.node.js:218-239 | with "continue on fail" a thrown value becomes an error reply for the item, typed `timeout` iff the message contains `timeout`; without it, a fatal error described by the raw message whose user-facing text names the timeout or ends with the raw message; a non-`Error` value has the unknown-error message and is no timeout |
| Node.ValidationErrorIsExecutionError | dist/nodes/AuggieCli/AuggieCli.node.js:155-159 | the blank-prompt error is classified as an execution error and reported with the "execution failed" prefix |
| Node.RunnerTimeoutIsExecutionError | dist/nodes/AuggieCli/AuggieCli.node.js:219-235 | the runner's timeout message (line 267) does not contain `timeout`, so it is classified as an execution error, not a timeout |
| Node.SpawnFailureTimeoutIff | dist/nodes/AuggieCli/AuggieCli.node.js:219-220 | a start-up failure (line 296) counts as a timeout exactly when the system's message contains `timeout` |
| Node.ItemSpecIndex | dist/nodes/AuggieCli/AuggieCli.node.js:215-237 | every reply and every fatal error of an item carries that item's index; with "continue on fail" an item never fails |
| Node.CombineStopsAtError | dist/nodes/AuggieCli/AuggieCli.node.js:236-239 | once an item has thrown out of the loop, later items change nothing |
| Node.CombineFailsFast | dist/nodes/AuggieCli/AuggieCli.node.js:146-241 | the loop succeeds iff every item succeeds, and then its replies are the items' replies in order; otherwise it ends with the first failing item's error |
| Node.ContinueOnFailAnswersEveryItem | dist/nodes/AuggieCli/AuggieCli.node.js:221-231 | with "continue on fail" every item gets exactly one reply, in item order, paired with its own index |
| Node.FailFastReportsFirstError | dist/nodes/AuggieCli/AuggieCli.node.js:233-239 | without "continue on fail" the execution fails iff some item fails, and reports the first failing item, every earlier item having succeeded |
| Node.ExecuteItem | dist/nodes/AuggieCli/AuggieCli.node.js:147-240 | one pass of the loop body makes the spawn and the reply or error of the item specification |
| Node.Execute | dist/nodes/AuggieCli/AuggieCli.node.js:143-243 | the loop over the items makes the spawns and returns the replies, or the fatal error, of the whole-execution specification |

## Left out

- The child process: `spawn` with `shell: true`, the stdio pipes and `child.kill('SIGTERM')` (lines 260-266) are operating-system I/O; the run's chunks and its end are inputs instead.
- The race between the timer, `close` and `error` (lines 265-268, 283-297) is event-loop concurrency; a run has exactly one end, and `clearTimeout` is not modelled.
- How the shell reads the quoted argument is not modelled; `Quoting.BackslashBeforeClosingQuote` only records where the quoting leaves a trailing backslash.
- Chunk decoding (`data.toString()`) is left out: chunks are already strings.
- The debug flag and all logging (lines 160-169, 189-205, 272-274, 279-281) only write side-channel output.
- `Date.now()` and `duration_ms` (lines 196-198, 210) are clock readings; the success reply has no duration field.
- `errorDetails` (line 226), the error's stack trace, is runtime data with no stated content; the error reply has no such field.
- The n8n host calls `getInputData`, `getNodeParameter`, `continueOnFail` and `getNode` are parameters: each item's `Params`, the `continueOnFail` flag and the `ProcessRun` list. A failing parameter lookup, and with it the default timeout of 300 seconds (line 147), is not modelled.
- `NodeOperationError` is reduced to its message, description and item index; the `pairedItem` wrapper is reduced to the item index.
- The node description (lines 8-141) is declarative UI configuration.
- Node.Params: the timeout is a natural number of seconds; fractional and negative values, and the millisecond conversion of line 249, are not modelled.
- Text.NatToString: writes every digit of an unbounded whole number; JavaScript's `${n}` agrees only below 2^53, because a number is a double: above 2^53 it prints the double's shortest rounded digits (`${2**60}` is `1152921504606847000`), and from 10^21 on it prints exponent form (`1e+21`).
- Runner.TimeoutMessage: the message of line 267 matches the source only for timeouts below 2^53, for the reason given for `Text.NatToString`; the same holds for the timeout in the message of line 234 (`Node.UserMessage`).
- Node.Thrown: the modelled flow only throws `Error` values; the `NonError` case covers the `catch` block's fallback but no modelled step produces it.
