# Supervised command execution in gpt-pilot, modelled in Dafny

This project models the bookkeeping of `pilot/helpers/cli.py`, the helper that
gpt-pilot uses to run a shell command for a project and to draw the project's
directory tree. The OS process, the reader threads, the clock and the database
are replaced by abstract inputs. What remains is sequential and deterministic:

- **Timeout normalisation.** A timeout under 1000 is read as seconds and
  scaled to milliseconds. The result is clamped to
  `[MIN_COMMAND_RUN_TIME, MAX_COMMAND_RUN_TIME]`. `None` means no timeout.
- **Command rewrite.** A command that mentions `cd ` or `source ` is wrapped as
  `bash -c '<command>'`.
- **The polling loop** of `execute_command`, modelled as a state machine
  (module `PollLoop`). Its state is two FIFO queues, the `output` and
  `stderr_output` buffers, a count of `terminate_process` calls and how the
  loop ended. One observation drives each iteration: the lines the two reader
  threads queued since the last iteration, whether the process has exited,
  and the elapsed milliseconds. A keyboard interrupt is a separate kind of
  observation. `PollLoop.PollUntilDone` is the loop as the source writes it,
  a `while` over local variables with an inner drain loop. It is proved equal
  to the fold `PollLoop.Run` of the one-iteration function `PollLoop.Step`.
- **Result assembly.** An optional `stderr` section comes first, then the
  `stdout` section. Each keeps only the last `MAX_COMMAND_OUTPUT_LENGTH`
  characters, using Python's `s[-n:]`.
- **History replay.** Every call increments `command_runs_count`. A stored run
  is returned without spawning when the project skips steps.
- **`build_directory_tree`**, over an in-memory tree of files and directories.
  It is proved equal to a flat pre-order listing (`DirectoryTree.Entries`)
  drawn line by line.

The constants `MIN_COMMAND_RUN_TIME`, `MAX_COMMAND_RUN_TIME` and
`MAX_COMMAND_OUTPUT_LENGTH` come from `const/code_execution.py`, which is not
part of this model. They are parameters here (`Execution.Limits`). Where a
property needs them ordered or positive, the lemma says so.

Some behaviour of `execute_command` worth stating:

- The result sections are fenced with three back-quotes.
- Both buffers grow without bound. Only the assembled text is cut to the cap.
- After exit only the stdout queue is drained. Lines still queued on stderr are
  never collected.
- The confirmation prompt's answer is never consulted.
- The `interrupted = True` assignments in `execute_command` bind a local name.
  The module-level flag read by the reader threads therefore never changes.

## Model

| member | source | states |
|---|---|---|
| CommandPrep.InMillis | pilot/helpers/cli.py:97-98 | a timeout under 1000 is multiplied by 1000; any other value is kept |
| CommandPrep.Clamp | pilot/helpers/cli.py:99 | `min(max(ms, MIN), MAX)` lies in `[MIN, MAX]` when `MIN <= MAX`, keeps an in-range value, gives MIN below and MAX above, and gives MAX whenever `MAX < MIN` |
| CommandPrep.NormaliseTimeout | pilot/helpers/cli.py:96-99 | `None` stays `None` and only `None` gives `None`; with `MIN <= MAX` a timeout always ends up in `[MIN, MAX]`; a value already in range once scaled is kept |
| CommandPrep.NormaliseIdempotent | pilot/helpers/cli.py:96-99 | with `1000 <= MIN <= MAX`, normalising an already normalised timeout changes nothing |
| CommandPrep.NeedsShell | pilot/helpers/cli.py:116 | a command needs the shell exactly when `cd ` or `source ` starts at some index of it |
| CommandPrep.ShellCommand | pilot/helpers/cli.py:116-117 | a command containing `cd ` or `source ` becomes exactly `bash -c '` + command + `'`; any other command is unchanged |
| CommandPrep.ShellCommandInverse | pilot/helpers/cli.py:116-117 | the wrapped command is recovered from characters 9 to the last but one, and the wrapped text still needs a shell, so a second rewrite would wrap again |
| CommandPrep.ShellCommandKeepsNeed | pilot/helpers/cli.py:116 | the rewrite preserves whether a command needs the shell, in both directions |
| Text.IsSubstringAt | pilot/helpers/cli.py:151 | the containment test used for `in` holds exactly when the line occurs at some index of the text |
| Text.IsSubstring | pilot/helpers/cli.py:116 | Python's `in` on strings: a prefix of the text occurs in it, and nothing longer than the text does |
| PollLoop.DrainNew | pilot/helpers/cli.py:149-153 | the final drain only ever appends: the old `output` is a prefix of the result, and the result grows by at most the drained lines' total length |
| PollLoop.Step | pilot/helpers/cli.py:140-188 | one iteration. The exit check wins over the timeout and completes the loop. The loop times out exactly when the process has not exited, a timeout is set and elapsed ms is strictly greater. An interrupt ends it as interrupted. Each timeout or interrupt adds exactly one terminate call |
| PollLoop.Initial | pilot/helpers/cli.py:130-137 | the loop starts running with both queues and both buffers empty and no terminate call |
| PollLoop.Expired | pilot/helpers/cli.py:157 | the timeout test never fires without a timeout, nor at exactly the timeout, and fires whenever the elapsed ms exceed a set timeout |
| PollLoop.PopInto | pilot/helpers/cli.py:162-178 | a non-blocking pop takes the queue's front line, if any, onto the end of the buffer (the `if line:` test changes nothing, since an empty line adds nothing); no text is lost or reordered: buffer followed by the joined queue is the same before and after |
| PollLoop.Run | pilot/helpers/cli.py:140-179 | once the loop has left, further observations change nothing |
| PollLoop.PollUntilDone | pilot/helpers/cli.py:128-188 | the imperative loop, with its in-place queues and buffers and its inner drain loop, ends in exactly the state `Run` gives for the same trace and timeout |
| PollLoopProperties.DrainNewCoversLines | pilot/helpers/cli.py:149-153 | after the final drain every drained line occurs somewhere in `output` |
| PollLoopProperties.DrainNewSkipsSeen | pilot/helpers/cli.py:151 | when every drained line already occurs in `output`, the drain leaves `output` unchanged |
| PollLoopProperties.DrainNewAppendsUnseen | pilot/helpers/cli.py:151-153 | a drained line not yet present is appended before the rest are considered |
| PollLoopProperties.DrainNewSkipsSeenLine | pilot/helpers/cli.py:151-153 | a drained line already present in `output` is skipped, and the rest are still considered against the same `output` |
| PollLoopProperties.DrainNewDropsLineSeenInside | pilot/helpers/cli.py:151 | raw containment drops a new line that occurs inside earlier output: `lo\n` after `hello\n` is lost |
| PollLoopProperties.PollStepMovesOneLinePerStream | pilot/helpers/cli.py:162-179 | an ordinary iteration removes at most the front line of each queue and appends it to the matching buffer (stdout to `output`, stderr to `stderr_output`); it does not terminate |
| PollLoopProperties.ExitStepDrainsStdoutOnly | pilot/helpers/cli.py:146-154 | on exit, even past the timeout, the stdout queue is emptied into `output` by the final drain; the stderr queue and `stderr_output` are left as they are; no terminate call |
| PollLoopProperties.AbortStepKeepsBuffers | pilot/helpers/cli.py:181-188 | a timeout or interrupt leaves both buffers unchanged and calls terminate exactly once |
| PollLoopProperties.RunFromStartIsFifo | pilot/helpers/cli.py:140-179 | over any trace, `stderr_output` is the in-order join of the stderr lines taken off the queue, with the rest still queued. Until exit the same holds for `output`. After exit, `output` is that join for some prefix of the queued lines, followed by the final drain of the others |
| PollLoopProperties.RunTerminatesOnlyOnAbort | pilot/helpers/cli.py:181-188 | from the start, `terminate_process` is called once if the loop timed out or was interrupted, and never otherwise |
| PollLoopProperties.RunStillRunningIff | pilot/helpers/cli.py:140-158 | the loop is still running after a trace exactly when every observation was a poll without exit and within the timeout |
| PollLoopProperties.NoTimeoutNeverTimesOut | pilot/helpers/cli.py:157 | without a timeout the loop never ends by timing out |
| CommandResult.Tail | pilot/helpers/cli.py:197-198 | Python's `s[-cap:]` is a suffix of `s`; for a positive cap its length is the cap or the whole length if shorter; for `cap <= 0` it starts at index `-cap`, so cap 0 keeps everything |
| CommandResult.Assemble | pilot/helpers/cli.py:194-198 | with empty `stderr_output` the result is exactly the fenced `stdout` section of the tail of `output`; otherwise the fenced `stderr` section of the tail of `stderr_output` precedes it |
| CommandResult.TailIsRecentOutput | pilot/helpers/cli.py:197-198 | for a positive cap the tail is at most the cap long, is the whole text when it fits, and otherwise its last `cap` characters |
| CommandResult.AssembleOpensWithStderrIff | pilot/helpers/cli.py:196-197 | the result opens with the `stderr` header exactly when `stderr_output` is non-empty |
| CommandResult.AssembleEndsWithRecentStdout | pilot/helpers/cli.py:198 | the result always ends with the most recent `min(cap, len(output))` characters of `output`, then the closing fence |
| CommandResult.AssembleLengthBound | pilot/helpers/cli.py:194-198 | the result is at most `2 * cap + 33` characters long, and at most `cap + 16` without stderr |
| CommandResult.AssembleEchoHello | pilot/helpers/cli.py:198 | `hello\n` on stdout and nothing on stderr give `stdout:\n```\nhello\n\n```` |
| DirectoryTree.Description | pilot/helpers/cli.py:229-235 | a description appears only when descriptions are enabled and the name has one, and then as ` - <description> ` |
| DirectoryTree.Render | pilot/helpers/cli.py:204-259 | an ignored node renders as the empty string; otherwise the output opens with the node's own line; a file renders as just its line |
| DirectoryTree.Indent | pilot/helpers/cli.py:223 | the indent is always four characters, and blank exactly when the node is the last of its listing |
| DirectoryTree.Line | pilot/helpers/cli.py:227-257 | the line of a file (247-257) or a directory (227-237) opens with the prefix, `\|-- ` and the name, ends with a newline, and a directory's line ends with `/` and the newline |
| DirectoryTree.RenderChildren | pilot/helpers/cli.py:240-243 | a listing draws nothing exactly when all its remaining items are ignored (both directions); whatever it draws opens with the prefix and `\|-- ` |
| DirectoryTreeProperties.RenderIsFormattedEntries | pilot/helpers/cli.py:222-259 | the recursive rendering equals the pre-order listing of nodes, each drawn as one line. A directory's line comes first, then its children's output in listing order |
| DirectoryTreeProperties.ChildrenAreFormattedEntries | pilot/helpers/cli.py:240-243 | the `enumerate` loop over a listing equals the listing of its children drawn line by line |
| DirectoryTreeProperties.EntriesAvoidIgnored | pilot/helpers/cli.py:219-220 | no drawn line carries an ignored name, and an ignored directory lists nothing, its children included |
| DirectoryTreeProperties.EntriesExtendPrefix | pilot/helpers/cli.py:223-243 | every line below a node starts with the node's prefix. Every line below a directory's own line starts with that prefix plus the indent chosen by the directory's own `is_last` |
| DirectoryTreeProperties.EntriesListEveryNode | pilot/helpers/cli.py:240-243 | with nothing ignored there is exactly one line per node of the tree |
| DirectoryTreeProperties.ChildIsLastOnlyAtEnd | pilot/helpers/cli.py:240-243 | the loop's output from child `index` on opens with that child's entries drawn with `is_last` set exactly when `index` is the final position; so a directory child's descendants are indented with four blanks when it is final and with `\|   ` otherwise |
| Execution.Answer | pilot/helpers/cli.py:194-198 | once the loop has left, the reply is the assembled text together with how the loop ended, also after a timeout or interrupt; a loop still running has no reply |
| Execution.ExecuteCommand | pilot/helpers/cli.py:83-202 | the run counter goes up by one on every call. When a stored run of the rewritten command exists and the project skips steps, its response is returned and checkpointed without running. Otherwise the reply is the assembled result of the loop with the normalised timeout |
| Execution.Project.constructor | pilot/helpers/cli.py:120-124 | the project fields `execute_command` reads and writes: a new project has counted no runs and holds no `last_command_run` checkpoint, and skips steps as given |
| ExecutionProperties.TimeoutStillAnswers | pilot/helpers/cli.py:157-198 | a run that timed out had a timeout set, called terminate exactly once, and still answers with the partial output |
| ExecutionProperties.EchoHello | pilot/helpers/cli.py:146-198 | `echo hello` exiting at the first poll answers `stdout:\n```\nhello\n\n```` as completed, without a terminate call |

## Left out

- `run_command` and `enqueue_output` (spawning through `subprocess.Popen` with `os.setsid`, and the two daemon reader threads) are concurrency and OS I/O. Each observation says which lines the threads queued since the previous iteration. These lines are queued at the top of the iteration. `process.poll()` does not look at the queues, so lines that arrive during the 0.1 s grace sleep are modelled as arriving before the poll.
- `terminate_process` (`taskkill` or `os.killpg`) is a foreign OS call. It is counted in `terminateCalls` and not otherwise modelled.
- `time.time()` and `time.sleep` are a wall clock with float seconds. Each observation carries the elapsed time as whole milliseconds, compared with `>` as in the source.
- A keyboard interrupt is modelled only at the start of an iteration. The source can raise it at any statement, including during the final drain.
- The loop only ends on exit, timeout or interrupt. A finite trace that ends earlier yields `StillRunning` (`Execution.Reply`), meaning the call has not returned yet.
- `print`, `colored` and the confirmation prompt `styled_text` are terminal I/O. The prompt's answer is never used, so `force` changes nothing observable and is not a parameter.
- `get_command_run_from_hash_id` is a database lookup. It is modelled as a map from the rewritten command text to the stored run.
- ExecuteCommand: does not model `save_command_run`, which persists the result to the database after every non-replayed call.
- The timeout is modelled as an integer. A float timeout, which Python would also accept, is not modelled.
- `build_directory_tree` reads the file system through `os.path.isdir`, `os.listdir` and `os.path.basename`. A node carries its base name, and a directory carries its listing in the order `os.listdir` would return it. `files` maps a name to its description text instead of to an object with a `.description` field.
- `execute_command_and_check_cli_response`, `run_command_until_success` and `debug` are a language-model conversation and a human-intervention workflow, with no local logic to check.
- `core/templates/javascript_react.py` holds string constants and an `npm install` hook. It has no logic to verify.
