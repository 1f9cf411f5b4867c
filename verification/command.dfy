/** The `workflow` command of main (main.go:290-316): load the workflow
    table, look the workflow up by its normalized name, run it with the third
    argument as entrypoint, and copy the finished script to the output path. The copy itself, the
    removal of the working directory and the logging are not modelled; the
    result says what would be written where. */
module Command {
  import opened Results
  import opened Bytes
  import opened Adapters
  import opened Presets
  import opened Executor
  import opened Loading

  datatype CommandError = UnknownCommand | RunFailed(failure: RunError)

  /** The artifact that main copies to the output path. */
  datatype Written = Written(path: string, contents: seq<byte>)

  /** flag.Arg: the i-th positional argument, "" when there is none. */
  function Arg(args: seq<string>, i: nat): string
  {
    if i < |args| then args[i] else ""
  }

  /** The environment of the run main starts: the entrypoint is the third
      positional argument. */
  function CommandEnv(args: seq<string>, tempDir: Option<string>, tools: (Call, Option<seq<byte>>) -> ToolResult): Env
  {
    Env(Arg(args, 2), tempDir, tools)
  }

  /** `exeDir` is the executable's directory, `flows` the -workflows flag and
      `fs` what reading and decoding each workflow file gives; `args` are the
      positional arguments, `out` the -o flag; `tempDir` and `tools` are what
      MkdirTemp and the external tools give. A directory that MkdirTemp
      returns is never the empty path. */
  function WorkflowCommand(exeDir: string, flows: string, fs: string -> FileState, args: seq<string>, out: string,
                           tempDir: Option<string>, tools: (Call, Option<seq<byte>>) -> ToolResult, fuel: nat)
    : (r: Result<Written, CommandError>)
    requires tempDir != Some("")
    ensures Arg(args, 0) != "workflow" ==> r == Failure(UnknownCommand)
    ensures Arg(args, 0) == "workflow" ==>
      var run := RunTop(CommandEnv(args, tempDir, tools), LoadedRegistry(exeDir, flows, fs), Normalize(Arg(args, 1)), fuel);
      && (r.Success? <==> run.outcome.Done?)
      && (run.outcome.Fatal? ==> r == Failure(RunFailed(run.outcome.failure)))
    ensures r.Success? ==> r.value.path == out
    ensures r.Success? ==>
      var run := RunTop(CommandEnv(args, tempDir, tools), LoadedRegistry(exeDir, flows, fs), Normalize(Arg(args, 1)), fuel);
      var ds := Dispatches(run.trace);
      && |ds| > 0
      && Chained(CommandEnv(args, tempDir, tools), ds, None)
      && Output(CommandEnv(args, tempDir, tools), ds[|ds| - 1]) == Success(r.value.contents)
  {
    if Arg(args, 0) != "workflow" then Failure(UnknownCommand)
    else
      var env := CommandEnv(args, tempDir, tools);
      var reg := LoadedRegistry(exeDir, flows, fs);
      var name := Normalize(Arg(args, 1));
      RunShape(env, reg, name, "", None, None, fuel);
      var run := RunTop(env, reg, name, fuel);
      match run.outcome
      case Fatal(f) => Failure(RunFailed(f))
      case Done(_, script) => Success(Written(out, script.value))
  }
}
