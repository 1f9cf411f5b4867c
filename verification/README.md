# frida-builder workflow executor, modelled in Dafny

frida-builder is a small Go command-line tool. It builds a Frida agent script
by running the caller's entrypoint through a named *workflow*, a list of
steps. A step either runs one external tool (`esbuild`, `terser` or `qjsc`)
on the working script, or reuses another workflow by name. Workflows are
loaded from JSON files, and later files override earlier ones. All steps of
one top-level run share a temporary working directory, which holds the
evolving `script` file. Exactly one step of the whole run reads the
entrypoint; every other step reads the working script. The `qjsc` step
compiles to C, and the adapter then recovers the bytecode from the array
literal in the generated text.

This project models that core, all of it in `main.go`, as pure Dafny functions:

- `results.dfy`: `Option` and `Result`.
- `seqs.dfy`: Go's `bytes.Split`, and `bytes.ReplaceAll` with an empty replacement.
- `bytes.dfy`: bytes and the ASCII codes the source uses.
- `hex.dfy`: `strconv.ParseUint(s, 16, 8)`.
- `extraction.dfy`: the bytecode extraction of the qjsc adapter.
- `adapters.dfy`: the three step adapters, as the tool call each one makes and what it does with the tool's report.
- `presets.dfy`: the `preset` record and the workflow table.
- `executor.dfy`: `runWorkflow`. It returns a trace of the directory it created and the tool calls it dispatched, and either the final script or the fatal error.
- `expansion.dfy`: a reference flattening of a workflow, and the proof that the executor dispatches exactly that list.
- `nesting.dfy`: when the nesting bound matters.
- `loading.dfy`: `loadWorkflows`, the load order and the name normalization.
- `command.dfy`: the `workflow` command.
- `scenarios.dfy`: whole runs worked through.

The model leaves out the file system, the external tools, `MkdirTemp` and
JSON decoding. They enter as parameters:

- `tools` maps a tool call, together with the working script's content at that moment (None before any step has written it), to the tool's report.
- `tempDir` is the directory `MkdirTemp` returns, or None when it fails.
- `fs` maps a file name to the decoded table.

Every `log.Fatal` in `runWorkflow` and in the step adapters becomes a `Fatal` outcome carrying a
`RunError`. So does every panic the source can hit in the extraction. The exception is the failed
write of the extracted bytes, which is assumed to succeed (see "Left out"). In `main`, an unknown
command becomes `CommandError.UnknownCommand`. The other fatal errors in `main` concern the
executable path, the current directory and the final copy, and are left out.

The source recurses without bound on `ReuseWorkflow`. The model bounds the
nesting depth with `fuel` and reports `NestingTooDeep` when the bound runs
out. `nesting.dfy` shows two things about this. On a registry without reuse
cycles, a large enough bound is never reached. A workflow whose first step
reuses itself reaches any bound without dispatching anything, where the source overflows
its stack.

Three consequences of the source as written are stated as properties and
not treated as defects:

- The array body ends at the next `{` as well as at the first `}`, because the source splits on `{` and keeps piece 1.
- The last comma-separated piece is always dropped, so an array written without a trailing comma loses its last byte (`Extraction.LastElementLost`).
- The terser adapter runs inside the working directory and passes the entrypoint verbatim. A relative entrypoint is therefore resolved against the working directory there, while esbuild and qjsc resolve it against the caller's directory. The model records the arguments as passed.

## Model

| member | source | states |
|---|---|---|
| Seqs.Split | main.go:151 | Go's `bytes.Split`: one more piece than separators, no piece contains the separator, and joining the pieces gives back the input |
| Seqs.Remove | main.go:150 | deleting every occurrence of a byte leaves none, shortens the input by the number of occurrences, and keeps the number of occurrences of every other value |
| Seqs.RemoveAppend | main.go:150 | deletion works piece by piece: deleting from a concatenation is concatenating the deletions, so the kept elements stay in their order |
| Hex.ParseUint8Spec | main.go:155 | `ParseUint(s, 16, 8)` succeeds exactly on a non-empty string of hex digits whose value is at most 255, and returns that value; empty input is a syntax error |
| Extraction.ParseTokens | main.go:151-160 | the element loop succeeds exactly when every element is a byte token, yielding each token's value in order; otherwise it fails at the first bad element, reporting it and whether it was too short to slice |
| Extraction.Extract | main.go:150-160 | the extraction fails with MissingOpenBrace exactly on text without `{`; otherwise it succeeds exactly when every array element parses, and returns one byte per element with that element's value |
| Extraction.ExtractOf | main.go:150 | only the text between the first `{` and the next brace matters: anything brace-free before it and anything after the closing `}` does not change the result |
| Extraction.RenderRoundTrip | main.go:150-160 | an array literal `{0xhh, ..., }` as the compiler prints it, with any runs of spaces and newlines before each element and before the closing brace, each element in upper- or lower-case hex, embedded in text with no `{` before it, is extracted to exactly the bytes it was printed from |
| Extraction.LastElementLost | main.go:151-152 | without the trailing comma, the last element of the array is silently dropped |
| Extraction.SampleArray | main.go:150-160 | `int f[] = {0x00, 0xFF, 0x10, };` extracts to the three bytes 0x00, 0xFF, 0x10 |
| Extraction.WrappedArray | main.go:150-160 | an array wrapped over several lines with indentation and lower-case digits, `{\n 0x0a, 0xff,\n 0x7b,\n};`, extracts to 0x0A, 0xFF, 0x7B |
| Extraction.NonHexRejected | main.go:155-157 | an element `0xZZ` stops the extraction with a syntax error naming that element |
| Adapters.EsbuildPreset | main.go:80-88 | the first step builds from the entrypoint; a later step builds from the working script and may overwrite it; all other build options are kept |
| Adapters.TerserPreset | main.go:108-117 | terser runs in the working directory on the entrypoint (first step) or the working script, with the configured options in order in the middle, writing the working script |
| Adapters.QjscPreset | main.go:123-140 | qjsc compiles the entrypoint (first step) or the working script, copied to module `f`, in the working directory and writes the working script |
| Adapters.Finish | main.go:145-164 | a tool error is fatal and names the tool; esbuild's and terser's output becomes the working script unchanged; qjsc's output becomes the extracted bytes, or the run fails with the extraction error |
| Executor.LeafCall | main.go:234-258 | a tool step dispatches exactly when its Util is esbuild with options, terser or qjsc, and the call selects its input by `first`; esbuild without options and an unknown Util are the two fatal errors, each naming workflow and index |
| Executor.Run | main.go:201-209 | an unknown workflow name and an empty workflow are fatal before anything is created or dispatched |
| Executor.RunShape | main.go:211-232 | a run given no directory creates one before anything else and never another; every dispatched call works in that directory; only the earliest dispatched call can be first, and it is first exactly as the override (default true) says; a completed run returns the directory and the last tool step's output; each dispatched tool is handed the working script as the previous tool left it, and the first one none |
| Executor.ReuseIgnoresUtil | main.go:229-232 | a step naming a workflow to reuse runs that workflow with its own `first` as override, whatever its Util and options say |
| Expansion.Expand | main.go:220-232 | the reference flattening lists only tool steps of the table, and a complete expansion is non-empty |
| Expansion.RunAgrees | main.go:220-258 | the calls a run dispatches are, in order, a prefix of the flattened workflow, each dispatched as its step's Util prescribes; a completed run has dispatched all of it |
| Expansion.TopLevelRun | main.go:220-227 | in a top-level run, the i-th dispatched call is the i-th step of the flattened workflow, and it reads the entrypoint exactly when i = 0; a completed run went through every step and created its directory first |
| Expansion.RunFlat | main.go:201-261 | when the flattened workflow is complete, a run is exactly this: create the directory if none was given, failing if `MkdirTemp` fails, then run the flattened tool steps in turn in that directory, the earliest marked first as the override says (default true), each on the script the previous one left, stopping at the first fatal step |
| Expansion.RunLeavesTrace | main.go:220-258 | the flat loop dispatches only tool calls, at most one per step, and when it completes it has dispatched one for every step and returns the directory it ran in |
| Expansion.RunLeavesFatal | main.go:234-258 | the flat loop fails only at the step it stopped at: either that step's Util cannot be dispatched, with nothing dispatched for it, or the adapter rejected the report of the call just dispatched |
| Expansion.FatalCause | main.go:201-258 | a run fails only when the workflow cannot be flattened (unknown, empty, or nested deeper than `fuel`, which needs a reuse cycle once `fuel` exceeds the workflow's rank, see Nesting.RankedRun), when `MkdirTemp` fails (or returns an empty path, which it never does), when the next step's Util is unknown or is esbuild without options, or when an adapter rejects the last tool's report; in the last two cases the run's error is the one that step or adapter reports |
| Expansion.RunCompletes | main.go:201-261 | conversely, when the workflow flattens completely and the directory is available, the run completes exactly when each call the run makes in turn can be dispatched (esbuild with options, terser or qjsc) and its adapter accepts the report the tool gives on the script the previous call left; a completed run has dispatched one call per flattened step |
| Nesting.RankedRun | main.go:229-231 | on a table whose reuse references have no cycle, a bound above the workflow's rank is never exhausted |
| Nesting.SelfReuse | main.go:229-231 | a workflow whose first step reuses itself dispatches nothing and never completes, whatever the bound |
| Loading.LoadWorkflows | main.go:178-199 | an empty name, an unreadable file or a malformed file leaves the table as it was; otherwise each workflow of the file replaces the entry of the same name and every other entry stays |
| Loading.LoadAllUntouched | main.go:196-198 | a workflow no loaded file defines keeps its earlier entry, or stays absent |
| Loading.LastWins | main.go:196-198 | a workflow defined by several loaded files is the definition of the last of them |
| Loading.LaterFileWins | main.go:290-291 | of two files both defining a workflow, the one loaded second wins |
| Loading.LoadOrder | main.go:290-297 | the file next to the executable is loaded first, then `workflows.json` in the current directory, then the `-workflows` list, whose items joined with commas give back the flag |
| Loading.TrimLeft | main.go:302 | trimming drops exactly the leading spaces |
| Loading.TrimRight | main.go:302 | trimming drops exactly the trailing spaces |
| Loading.ToLower | main.go:302 | lower-casing keeps the length, maps each ASCII capital to its small letter and leaves every other character |
| Loading.NormalizeNormal | main.go:302 | every looked-up name is trimmed and has no capital letter, and such a name is looked up as itself: a table entry with a capital or an outer space cannot be named on the command line, and is reachable only through a ReuseWorkflow reference, which is not normalized |
| Loading.NormalizeIdempotent | main.go:302 | normalizing a name twice is normalizing it once |
| Command.WorkflowCommand | main.go:290-316 | the table is the one loaded in the documented order; any first argument other than `workflow` is an unknown command; otherwise the command succeeds exactly when the run of the normalized name completes, writes to the output path the output of the last dispatched tool, and reports the run's failure otherwise |
| Scenarios.FirstStepAcrossReuse | main.go:220-232 | with `a = [reuse b, terser]` and `b = [esbuild]`, the esbuild step in `b` reads the entrypoint and the terser step in `a` reads the working script, which holds esbuild's output |
| Scenarios.TerserOnlyCompletes | main.go:220-247 | a workflow of one terser step completes, having dispatched one call, whenever terser reports output, even if qjsc would fail on every input |
| Scenarios.QjscOnly | main.go:300-311 | a workflow of one qjsc step writes exactly the extraction parser's output on the compiler's text, or fails with the extraction's error |
| Scenarios.QjscOnlyRoundTrip | main.go:300-311 | when the compiler's text holds the array of some bytes, in any blank layout and either hex case, the command writes exactly those bytes |

## Left out

- The file system, process execution and the tools themselves: copying files, `esbuild.Build`, running terser and qjsc (main.go:25-78, 88-105, 117-121, 135-148). Each tool call is a `Call` record, and the `tools` parameter gives its report.
- esbuild's error list, an empty output-file list and a failed write all collapse into one `ToolError`, because the model does not distinguish the three messages.
- The write of the extracted bytes back to the working script (main.go:162-165) is assumed to succeed.
- JSON decoding of workflow files. The `fs` parameter gives, for each name, whether the file was read and decoded and the table it holds.
- `os.Executable`, `os.Getwd` and their failures (main.go:274-288). The executable's directory is a parameter.
- `MkdirTemp`'s name pattern under the current directory (main.go:212). The created directory is the `tempDir` parameter, which is never the empty path.
- Copying the artifact to the output path and removing the working directory (main.go:307-312). The command's result names the path and the bytes to write there.
- Logging, the elapsed time and the version banner.
- Flag parsing. Positional arguments are a list, and `flag.Arg` gives "" past its end. The `flows != nil` test is always true in Go.
- Loading.ToLower: only ASCII letters are lowered, while Go's `strings.ToLower` lowers all Unicode letters.
- Executor.Run: unbounded recursion through a reuse cycle, which in Go ends in a stack overflow, is modelled as the `NestingTooDeep` failure once `fuel` nested calls are active.
- Extraction.ParseTokens: on failure the contract says which element failed and whether it was too short to slice. It does not say which `ParseUint` error (syntax or range) the element got. That error comes from the left-to-right digit loop of `Hex.ParseUint8`.
- Re-running a workflow gives the same artifact: every member here is a function of its inputs, so no separate lemma states it.
