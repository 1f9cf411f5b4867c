/** The three step adapters (main.go:80-166). Each one chooses its input (the
    caller's entrypoint for the first step, the working script otherwise),
    builds the invocation of one external tool, and afterwards turns the
    tool's output into the new working script. The tools themselves are not
    modelled: an adapter here produces the `Call` record the tool would
    receive, and `Finish` interprets what the tool reported back. */
module Adapters {
  import opened Results
  import opened Bytes
  import opened Extraction

  /** Name of the working script inside the working directory. */
  const ScriptName := "script"

  /** Fixed module name the qjsc adapter copies its input to (main.go:124). */
  const ModuleName := "f"

  /** The parts of esbuild's BuildOptions the adapter sets; every other
      option of the configuration travels unchanged in `settings`. */
  datatype BuildOptions = BuildOptions(entryPoints: seq<string>, allowOverwrite: bool, settings: string)

  /** One invocation of an external tool, with the working directory it
      works in. */
  datatype Call =
      /** `esbuild.Build(options)`; the first output file is then written to `dir/script`. */
    | EsbuildCall(dir: string, options: BuildOptions)
      /** `terser` run inside `dir` with `args`. */
    | TerserCall(dir: string, args: seq<string>)
      /** `source` copied to `dir/f`, then `qjsc` run inside `dir` with `args`,
          then `dir/script` read back. */
    | QjscCall(dir: string, source: string, args: seq<string>)

  /** What an external tool (and the file operations around it) reported:
      an error, or the bytes it left as the working script (for qjsc: the
      generated C text). */
  datatype ToolResult = ToolError(message: string) | ToolOutput(contents: seq<byte>)

  datatype AdapterError =
    | ToolFailed(tool: string, message: string)
    | MalformedScript(error: ExtractError)

  /** Absolute path of the working script. */
  function ScriptPath(wdir: string): string
  {
    wdir + "/" + ScriptName
  }

  function ToolName(c: Call): string
  {
    match c
    case EsbuildCall(_, _) => "esbuild"
    case TerserCall(_, _) => "terser"
    case QjscCall(_, _, _) => "qjsc"
  }

  /** The call takes the caller's entrypoint, as given on the command line,
      as its input. */
  predicate ReadsEntrypoint(c: Call, entrypoint: string)
  {
    match c
    case EsbuildCall(_, options) => options.entryPoints == [entrypoint]
    case TerserCall(_, args) => |args| > 0 && args[0] == entrypoint
    case QjscCall(_, source, _) => source == entrypoint
  }

  /** The call takes the working script of its directory as its input (for
      esbuild also allowing the output to overwrite it). */
  predicate ReadsScript(c: Call)
  {
    match c
    case EsbuildCall(dir, options) => options.entryPoints == [ScriptPath(dir)] && options.allowOverwrite
    case TerserCall(_, args) => |args| > 0 && args[0] == ScriptName
    case QjscCall(dir, source, _) => source == ScriptPath(dir)
  }

  /** The call leaves its result in the working script of its directory. */
  predicate WritesScript(c: Call)
  {
    match c
    case EsbuildCall(_, _) => true
    case TerserCall(_, args) => |args| >= 2 && args[|args| - 2..] == ["-o", ScriptName]
    case QjscCall(_, _, args) => args == ["-c", "-m", ModuleName, "-o", ScriptName]
  }

  /** The adapter contract shared by all three tools: input chosen by
      `first`, output to the working script of `wdir`. */
  predicate Selects(c: Call, entrypoint: string, wdir: string, first: bool)
  {
    && c.dir == wdir
    && (first ==> ReadsEntrypoint(c, entrypoint))
    && (!first ==> ReadsScript(c))
    && WritesScript(c)
  }

  /** esbuildPreset (main.go:80-88). */
  function EsbuildPreset(entrypoint: string, wdir: string, first: bool, options: BuildOptions): (c: Call)
    ensures c.EsbuildCall? && Selects(c, entrypoint, wdir, first)
    ensures c.options.settings == options.settings
    ensures first ==> c.options.allowOverwrite == options.allowOverwrite
  {
    if first then EsbuildCall(wdir, options.(entryPoints := [entrypoint]))
    else EsbuildCall(wdir, options.(entryPoints := [ScriptPath(wdir)], allowOverwrite := true))
  }

  /** terserPreset (main.go:108-117). */
  function TerserPreset(entrypoint: string, wdir: string, first: bool, options: seq<string>): (c: Call)
    ensures c.TerserCall? && Selects(c, entrypoint, wdir, first)
    ensures |c.args| == |options| + 3 && c.args[1..|options| + 1] == options
  {
    var input := if first then entrypoint else ScriptName;
    TerserCall(wdir, [input] + options + ["-o", ScriptName])
  }

  /** qjscPreset, the part before the output is read back (main.go:123-143). */
  function QjscPreset(entrypoint: string, wdir: string, first: bool): (c: Call)
    ensures c.QjscCall? && Selects(c, entrypoint, wdir, first)
  {
    var source := if first then entrypoint else ScriptPath(wdir);
    QjscCall(wdir, source, ["-c", "-m", ModuleName, "-o", ScriptName])
  }

  /** The new working script after the tool reported `result`: a tool error
      is fatal and names the tool; esbuild's and terser's output is the new
      script as it is; qjsc's generated text goes through the extraction
      parser (main.go:145-164). */
  function Finish(c: Call, result: ToolResult): (r: Result<seq<byte>, AdapterError>)
    ensures result.ToolError? ==> r == Failure(ToolFailed(ToolName(c), result.message))
    ensures result.ToolOutput? && !c.QjscCall? ==> r == Success(result.contents)
    ensures result.ToolOutput? && c.QjscCall? ==>
      (r.Success? <==> Extract(result.contents).Success?) &&
      (r.Success? ==> r.value == Extract(result.contents).value) &&
      (r.Failure? ==> r.error == MalformedScript(Extract(result.contents).error))
  {
    match result
    case ToolError(message) => Failure(ToolFailed(ToolName(c), message))
    case ToolOutput(contents) =>
      if c.QjscCall? then
        match Extract(contents)
        case Success(bytes) => Success(bytes)
        case Failure(e) => Failure(MalformedScript(e))
      else Success(contents)
  }
}
