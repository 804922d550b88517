# Resource-bounded code execution: a Dafny model

This project models the decision logic of a service that runs untrusted programs. The service has two entry points.

- `codeCompile` (`codeCompile.js`) validates an event `{code, language, input}` and resolves the language to an optional compile step and a run step. It stages a scratch directory under `/tmp`, then runs each step as a process with `runProcess`, under a wall-clock deadline, a memory ceiling and output caps. It removes the directory and answers `{output}`, `{errorType, output}` or `{error}`.
- The `/run` handler (`index.js`) is a second, shell-based entry point. It builds shell command strings per language and runs them with `exec`. For TypeScript and C# it filters the compiler's diagnostics before answering.

The model is in nine modules, one file each:

| file | module | models |
|---|---|---|
| `wrappers.dfy` | `Wrappers` | `Option` |
| `js_strings.dfy` | `JsStrings` | the JavaScript string operations used: `trim`, `toLowerCase`, `includes`, `split("\n")`, `join`, `slice(0, n)`, `parseInt` of a digit run, number-to-text |
| `lines.dfy` | `Lines` | `filter` on a list of lines and the spread of an insertion-ordered `Set` |
| `proc_status.dfy` | `ProcStatus` | the first match of `/VmRSS:\s+(\d+)\s+kB/` in `/proc/<pid>/status` |
| `phase.dfy` | `Phase` | `runProcess` and `monitorLimits`: one phase as a class whose methods are the event handlers |
| `toolchain.dfy` | `Toolchain` | the language table of `codeCompile` |
| `orchestrator.dfy` | `Orchestrator` | `codeCompile`: validation, sequencing, cleanup, result shaping |
| `diagnostics.dfy` | `Diagnostics` | the TypeScript and C# diagnostic filters of `/run` |
| `run_handler.dfy` | `RunHandler` | the `/run` handler: validation, language `switch`, command composition, `exec` sequencing |

Modelling choices:

- **One phase.** `Phase.PhaseRun` holds the closure state of one `runProcess` call: `stdout`, `stderr`, `finished`, `peakMemory` and the promise (`outcome`, set only by the first settle). It also records whether the deadline timer and the sampling interval are still scheduled, and the stats reports. Process-group kills and accepted memory samples are ghost counters.
  - Each event the event loop can deliver is a method: a stdout chunk, a stderr chunk, the deadline, a memory tick carrying the status text or nothing, a spawn error, and close.
  - `Valid()` is the invariant every handler keeps.
  - `Phase.RunPhase` feeds a trace of events to a fresh phase. It proves that the promise is settled once a close, a spawn error or the deadline has arrived, and that the settling event explains the outcome.
- **Whole requests.** `codeCompile` is a pure function over the settled outcomes of its phases. Its filesystem and spawn effects are returned in order as a list of actions.
- **The `/run` handler** is a method. `exec` is a function parameter from command string to what its callback receives. The `mkdir`, file writes, `exec` calls and `rmSync` are recorded as actions.

Behaviours of the code a caller might not expect:

- **Overflow output.** On an output overflow the rejection carries `(stdout || stderr).slice(0, MAX_OUTPUT_LENGTH)`, taken after the marker was appended. So the truncation marker never reaches the caller (`Phase.OverflowDropsMarker`).
- **Stderr overflow.** A stderr overflow reports stdout whenever stdout is not empty (`Phase.PhaseRun.OnStderr`).
- **Unknown language.** `codeCompile` creates the scratch directory and writes `input.txt` before it finds the language unknown, then removes the directory (`Orchestrator.UnsupportedLanguage`).
- **Directory leak in `/run`.** The handler removes its `run/<id>` directory only on the generic path. The unsupported-language path and the TypeScript and C# paths leave it behind. `RunHandler.HandleRun` states this in its contract: the unsupported path's actions are exactly `[MakeDir(dir)]`, and `SplitOutcome` has `RemoveDir(dir) !in actions`.
- **`cpp`.** `index.js` does not accept `cpp`, while `codeCompile` does (`RunHandler.ShellCommandsSpec`).

## Model

| member | source | states |
|---|---|---|
| JsStrings.Trim | codeCompile.js:138 | `trim()` returns a part of the input no longer than it that neither starts nor ends with JavaScript whitespace |
| JsStrings.TrimEmptyIff | codeCompile.js:138 | `code.trim().length === 0` holds exactly when every character of the code is whitespace |
| JsStrings.TrimIdempotent | index.js:125 | trimming a trimmed text changes nothing |
| JsStrings.TrimKeepsInterior | codeCompile.js:91 | trimming strips exactly the blank margins around a text that starts and ends with a visible character |
| JsStrings.ToLower | codeCompile.js:151 | `toLowerCase()` keeps the length, maps each character by itself, and leaves no upper-case ASCII letter |
| JsStrings.ToLowerIdempotent | index.js:28 | lower-casing twice is lower-casing once |
| JsStrings.Contains | index.js:122 | `includes(p)` is true exactly when `p` occurs at some position |
| JsStrings.Split | index.js:122 | `split("\n")` yields at least one piece and no piece contains the separator |
| JsStrings.JoinSplit | index.js:122-123 | joining the pieces of a split with the separator gives back the text |
| JsStrings.SplitJoin | index.js:122-123 | splitting a join of separator-free lines gives back the lines |
| JsStrings.Take | codeCompile.js:65 | `slice(0, n)` is a prefix of at most `n` characters, and the whole text when it is short enough |
| JsStrings.NatToString | codeCompile.js:128 | the decimal text of a number is a non-empty digit string without a leading zero |
| JsStrings.DigitsValueOfNatToString | codeCompile.js:34 | `parseInt` of the decimal text of `n` is `n` |
| JsStrings.IntToString | codeCompile.js:128 | the decimal text of an exit code starts with `-` exactly when the code is negative |
| Lines.Filter | index.js:122 | `filter(keep)` keeps at most the input's lines, every kept line passes, and a line is kept exactly when it is an input line that passes |
| Lines.FilterAppend | index.js:122 | filtering a concatenation is filtering each part and concatenating, so every passing occurrence is kept in its place |
| Lines.FilterOne | index.js:122 | a single line is kept exactly when it passes |
| Lines.FilterCount | index.js:122 | each passing line is kept exactly as many times as it occurs, and no failing line is kept |
| Lines.FilterKeepsOrder | index.js:122 | filtering keeps the order of first occurrences |
| Lines.FilterAll | index.js:147 | filtering lines that all pass returns them unchanged |
| Lines.DedupSpec | index.js:121-123 | `[...new Set(xs)]` has exactly the elements of `xs`, each once, in the order of their first occurrence |
| Lines.DedupOfDistinct | index.js:143-149 | a list without repeats is left unchanged by the `Set` spread |
| Lines.DedupIdempotent | index.js:143-149 | de-duplicating twice is the same as once |
| ProcStatus.MatchPrefixIff | codeCompile.js:32 | the matcher accepts a text at a position with value `n` exactly when the regular expression matches there with group `n` (greedy `\s+`, `\d+`, `\s+kB`) |
| ProcStatus.FirstMatchNone | codeCompile.js:32-33 | the left-to-right scan reports nothing exactly when the pattern matches at no position |
| ProcStatus.FirstMatchSome | codeCompile.js:32-34 | a reported value is the group of a match at some position, with no match at any earlier position |
| ProcStatus.FirstMatchReaches | codeCompile.js:32-34 | when nothing matches before a position that matches, the scan reports that position's group |
| ProcStatus.VmRssLineRoundTrip | codeCompile.js:31-34 | a status text whose first `VmRSS:` line holds `n` kB is read as `n` |
| Phase.Label | codeCompile.js:26-129 | every rejection type is a non-empty text |
| Phase.LabelInjective | codeCompile.js:26-129 | the six rejection types are distinct texts |
| Phase.Settle | codeCompile.js:61 | a promise settles once: the first `resolve`/`reject` fixes the outcome and later ones leave it |
| Phase.MaxOf | codeCompile.js:35 | the peak bounds every sample and is one of them, or 0 before any |
| Phase.MaxOfAppend | codeCompile.js:35 | a new sample raises the peak to itself when higher and leaves it otherwise |
| Phase.CappedOutput | codeCompile.js:65 | `getOutput()` is never longer than `MAX_OUTPUT_LENGTH` |
| Phase.CappedOutputSpec | codeCompile.js:65 | `getOutput()` is the start of stdout when stdout is not empty, else of stderr, cut only at `MAX_OUTPUT_LENGTH` |
| Phase.OverflowDropsMarker | codeCompile.js:67-88 | the overflow rejection carries the received text cut at `MAX_OUTPUT_LENGTH`, without the truncation marker |
| Phase.ExitDiagnosticSpec | codeCompile.js:124-129 | a non-zero exit reports stderr, else stdout, else a message that starts `Process exited with code <code>` and then ends with ` signal:<name>` when a signal name is present, or stops there when none is |
| Phase.WritesStdinIff | codeCompile.js:91 | the input is written to stdin exactly when it holds a non-whitespace character; `null` never is |
| Phase.PhaseRun.constructor | codeCompile.js:60-104 | a phase starts with empty buffers, no outcome, peak 0, both watchers scheduled, and stdin written exactly as `WritesStdin` says |
| Phase.PhaseRun.Output | codeCompile.js:65 | `getOutput()` is within the cap |
| Phase.PhaseRun.OnStdout | codeCompile.js:66-77 | a chunk is appended only while stdout is under the cap; the append that reaches the cap adds the marker, kills the group once and settles "Output Limit Exceeded" with the received text's first `MAX_OUTPUT_LENGTH` characters; nothing else changes |
| Phase.PhaseRun.OnStderr | codeCompile.js:79-90 | the same for stderr, with its own marker and "Error Limit Exceeded", carrying `getOutput()` |
| Phase.PhaseRun.OnDeadline | codeCompile.js:20-27 | the deadline does nothing once a watcher has fired; otherwise it sets `finished`, kills the group and settles "Time limit exceeded" with `getOutput()` |
| Phase.PhaseRun.OnMemoryTick | codeCompile.js:28-48 | a tick does nothing once a watcher has fired or when the sample is unreadable; a readable sample is recorded, and only one strictly above the limit ends the phase with "Memory limit exceeded", clearing both watchers |
| Phase.PhaseRun.OnSample | codeCompile.js:33-46 | a readable sample raises the peak to itself when higher; at or below the limit it changes nothing else |
| Phase.PhaseRun.MemoryLimitHit | codeCompile.js:37-45 | the violation path sets `finished`, kills once, clears the timer and the interval and settles "Memory limit exceeded" |
| Phase.PhaseRun.CleanupMonitor | codeCompile.js:50-57 | cleanup clears both watchers and reports the peak exactly when no watcher fired |
| Phase.PhaseRun.OnSpawnError | codeCompile.js:117-120 | a spawn error cleans up and settles "Syntax Error" with the error's message, else its text |
| Phase.PhaseRun.OnClose | codeCompile.js:121-131 | close cleans up; exit code 0 settles with stdout, any other code or a signal settles "Error occurred" with the exit diagnostic |
| Phase.Deliver | codeCompile.js:60-133 | handing one event to the phase keeps its invariant; a settled promise stays settled; a newly settled one is explained by the event; after a close, a spawn error or the deadline the promise is settled |
| Phase.RunPhase | codeCompile.js:60-133 | over any event trace (timer ticks only while scheduled), the promise is settled once a close, spawn error or deadline has arrived. The outcome is explained by an event of its kind. A resolved output is under the cap, and a limit rejection's output is at most the cap |
| Toolchain.ResolveSpec | codeCompile.js:160-274 | a name resolves exactly when it is one of the seventeen known names; a compile step exists exactly for the compiled languages; each step gets its phase's timeout |
| Toolchain.AliasesAgree | codeCompile.js:160-251 | `js`, `ts`, `python3`, `cpp` and `c#` resolve exactly as `javascript`, `typescript`, `python`, `c++` and `csharp` |
| Toolchain.CompiledArtifactIsRun | codeCompile.js:164-268 | for every compiled language, the file the compile step writes is the file the run step executes |
| Toolchain.TypeScriptArtifact | codeCompile.js:167-179 | `tsc … --outDir dir` writes `dir/program.js`, which `node` runs |
| Toolchain.NativeArtifact | codeCompile.js:184-194 | `gcc`/`clang++`/`rustc -o dir/program` write the program that is run |
| Toolchain.JavaArtifact | codeCompile.js:195-203 | `javac dir/Program.java` writes the class that `java -cp dir Program` loads |
| Toolchain.KotlinArtifact | codeCompile.js:251-268 | `kotlinc … -d dir/Program.jar` writes the jar that `java -jar` runs |
| Toolchain.CSharpArtifact | codeCompile.js:204-229 | `dotnet build dir -o dir/out` on `run.csproj` writes `dir/out/run.dll`, which `dotnet` runs |
| Orchestrator.ValidateSpec | codeCompile.js:138-141 | each validation error is returned exactly when its field is the first bad one, and a request passes exactly when the code is a non-blank string and language and input are strings or falsy |
| Orchestrator.CodeCompile | codeCompile.js:135-305 | a request touches nothing exactly when it fails validation |
| Orchestrator.InvalidTouchesNothing | codeCompile.js:137-154 | an invalid request answers its validation error before any directory is made |
| Orchestrator.DefaultLanguage | codeCompile.js:151 | an absent or falsy language resolves as JavaScript |
| Orchestrator.CaseInsensitive | codeCompile.js:151-274 | two spellings of a language that lower-case alike perform the same actions and, when the language is supported, give the same answer |
| Orchestrator.UnsupportedLanguage | codeCompile.js:269-274 | an unknown name is answered `Unsupported language: <name as given>`. The directory is made, gets only `input.txt`, and is removed. Nothing is spawned |
| Orchestrator.Workspace | codeCompile.js:153 | the scratch directory is an absolute path |
| Orchestrator.Phases | codeCompile.js:275-293 | a request spawns one or two steps, all inside the scratch directory |
| Orchestrator.PhaseSequencing | codeCompile.js:275-301 | without a compile step only the run step is spawned. A rejected compile phase is the answer and the run step is never spawned. Otherwise compile and then run are spawned and the run phase is the answer. The compile phase gets `null` input and never has stdin written |
| Orchestrator.RunInput | codeCompile.js:286-293 | the run phase reads back `input \|\| ""` and has stdin written exactly when the input is a string with a non-blank character |
| Orchestrator.WorkspaceLifecycle | codeCompile.js:151-301 | every valid request makes the directory first and removes it last, on every path. Every write precedes every spawn, every spawn runs in the directory, and the source (and for C# the project file) is written |
| Orchestrator.CompileFeedsRun | codeCompile.js:153-268 | in the request's scratch directory, every compile step writes the file its run step executes |
| Orchestrator.ResponseOrigin | codeCompile.js:275-301 | an `{output}` answer is the run phase's resolved output, an `{errorType}` answer carries one of the six phase labels, and `{error}` comes only from validation or an unknown language |
| Diagnostics.DiagnosticLinesSpec | index.js:120-123 | the kept lines are exactly the distinct input lines that pass the filter, each once, newline-free, in first-occurrence order |
| Diagnostics.ReportLines | index.js:121-125 | before trimming, the report splits back into exactly the kept lines |
| Diagnostics.ReportStable | index.js:121-125 | filtering the untrimmed report again gives the same lines |
| Diagnostics.ReportPieces | index.js:120-125 | for a filter that ignores a line's outer whitespace, the trimmed report splits into one line per kept line, every line passes the filter, and the lines between the first and the last are the kept lines unchanged |
| Diagnostics.TsReportLines | index.js:120-125 | every line of the TypeScript compile-error answer contains `error TS`, one line per distinct error line |
| Diagnostics.CsReportLines | index.js:141-151 | every line of the C# compile-error answer contains `error CS` or `warning CS`, one line per distinct such line |
| Diagnostics.ReportTrimmed | index.js:125 | the report is already trimmed |
| Diagnostics.ReportEmptyIff | index.js:120-125 | when kept lines are never blank, the report is empty exactly when no line is kept |
| Diagnostics.TsDiagnosticsEmptyIff | index.js:120-125 | the TypeScript report reads `stderr \|\| stdout \|\| message` and is empty exactly when that text has no `error TS` line |
| Diagnostics.CsDiagnosticsEmptyIff | index.js:141-151 | the C# report reads `stderr + "\n" + stdout + "\n" + message` and is empty exactly when no line has `error CS` or `warning CS` |
| RunHandler.ShellCommandsSpec | index.js:28-108 | the switch accepts exactly its sixteen names (not `cpp`), has a compile command exactly for the compiled ones, and writes a project file only for C# |
| RunHandler.ExecCommandSpec | index.js:113-115 | the combined command always ends by redirecting `input.txt`; with a compile command it is that command, `&&`, and the command without one |
| RunHandler.Staging | index.js:59-111 | everything staged before a command runs is a file write |
| RunHandler.HandleRun | index.js:14-188 | a missing or empty code or language is answered 400 before any directory is made. Otherwise the directory is made first. An unknown name is answered 400 and nothing else happens. Otherwise the files are staged, and the TypeScript/C# and generic paths behave as `RunSplit` and `RunCombined` state |
| RunHandler.RunSplit | index.js:117-163 | TypeScript and C# compile first. A compile error is answered 500 with the filtered diagnostics and nothing is run. Otherwise the run command with redirected input is executed and answered. The directory is never removed, and every `exec` has the 10 s timeout |
| RunHandler.RunCombined | index.js:164-183 | the other languages execute the combined command once, remove the directory, then answer 500 with `stderr \|\| error.message` or 200 with stdout |

## Left out

- Process I/O is not modelled: `spawn`, `exec`, signal delivery to process groups, and the child's stdin writing with its `EPIPE` handling. A kill is a ghost counter. Writing stdin is a flag fixed at spawn.
- Timers and real time are not modelled: deadline ticks and memory ticks are events in a trace, and `Date.now` durations are dropped. The stats report records the peak memory only.
- The filesystem is not modelled: `mkdirSync`, `writeFileSync`, `readFileSync` and `rmSync` are recorded actions, and the `/proc` read is the text (or nothing) carried by a memory tick. Their failures are not modelled. In `codeCompile` a failing `mkdirSync` or `writeFileSync` is answered `{errorType: "ServerError", output: e.message}` by the outer `catch`. A failing `readFileSync` of the input, or a synchronous throw from `spawn`, lands in the inner `catch` instead, which answers `{errorType: err.type, output: err.output}` with both fields undefined. The handler answers such failures with a 500.
- Logging is left out: `console.log` and the floating-point memory figures of `os.totalmem`/`os.freemem`.
- The uuid generator is left out; the id is a parameter. Express, body parsing, CORS and `app.listen` are not modelled.
- lambda.js is not part of this model; it only delegates to `codeCompile`.
- Concurrency between requests is left out: each request is modelled alone.
- Orchestrator.CodeCompile: each phase is given by the outcome its promise settles with. A phase that never settles is not modelled, since the deadline settles it (`Phase.RunPhase`). Only the kind of event that settled a phase is tied to its outcome, not the event's data.
- Orchestrator.Truthy: `NaN` is not modelled; a number is falsy exactly when it is zero.
- JsStrings.ToLower: lower-cases ASCII letters only; full Unicode case mapping is not modelled.
- JsStrings.Take, Phase.CappedOutput, Phase.PhaseRun.OnStdout, Phase.PhaseRun.OnStderr: lengths count characters, not UTF-16 code units, so the output caps and the `slice` are measured in characters.
- JsStrings.DigitsValueOfNatToString: `parseInt` is exact; precision loss above 2^53 is not modelled.
- RunHandler.HandleRun: body fields are absent or strings. A non-string `language`, on which `toLowerCase` throws, is not modelled.
- Toolchain.JavaArtifact: holds only when the submitted public class is named `Program`; `javac` names class files after the classes they declare, not after the source file.
- Orchestrator.Validate: the event is a record with three fields. A `null` or `undefined` event, whose destructuring throws and is answered `{errorType: "ServerError"}`, is not modelled.
- Toolchain.CompiledArtifactIsRun: requires an absolute scratch directory, which `path.join("/tmp", id)` always is.
