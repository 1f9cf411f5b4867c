/** Whole runs worked through: the first-step rule across a reused
    workflow, a terser-only workflow completing whatever qjsc would do, and
    a workflow of a single qjsc step from the command line to the written
    artifact. */
module Scenarios {
  import opened Results
  import opened Bytes
  import opened Adapters
  import opened Presets
  import opened Executor
  import opened Expansion
  import opened Extraction
  import opened Loading
  import opened Command

  /** `a` = [reuse `b`, terser with `minify`], `b` = [esbuild with `bundle`]. */
  function NestedRegistry(bundle: BuildOptions, minify: seq<string>): Registry
  {
    map[
      "a" := [Step("b", "", None, None), Step("", "terser", Some(minify), None)],
      "b" := [Step("", "esbuild", None, Some(bundle))]
    ]
  }

  /** Running `a`: the esbuild step inside `b` is the one that reads the
      entrypoint, and the terser step back in `a` reads the working script
      although it is the first tool step of `a` itself; terser is handed what
      esbuild wrote. */
  lemma FirstStepAcrossReuse(entrypoint: string, dir: string, tools: (Call, Option<seq<byte>>) -> ToolResult,
                             bundle: BuildOptions, minify: seq<string>, fuel: nat)
    requires dir != "" && fuel >= 2
    requires forall c, s :: tools(c, s).ToolOutput?
    ensures var r := RunTop(Env(entrypoint, Some(dir), tools), NestedRegistry(bundle, minify), "a", fuel);
            var esbuild := EsbuildCall(dir, bundle.(entryPoints := [entrypoint]));
            var terser := TerserCall(dir, [ScriptName] + minify + ["-o", ScriptName]);
            var built := Some(tools(esbuild, None).contents);
      && r.trace == [TempDirCreated(dir), Dispatched("b", 0, true, esbuild, None), Dispatched("a", 1, false, terser, built)]
      && r.outcome == Done(dir, Some(tools(terser, built).contents))
      && ReadsEntrypoint(esbuild, entrypoint) && ReadsScript(terser)
  {
    var env := Env(entrypoint, Some(dir), tools);
    var reg := NestedRegistry(bundle, minify);
    var esbuild := EsbuildCall(dir, bundle.(entryPoints := [entrypoint]));
    var terser := TerserCall(dir, [ScriptName] + minify + ["-o", ScriptName]);
    var f := fuel - 1;
    var built := Some(tools(esbuild, None).contents);
    var first := Dispatched("b", 0, true, esbuild, None);
    var inner := RunSteps(env, reg, "b", 0, dir, Some(true), None, f - 1);
    assert RunLeaf(env, "b", 0, reg["b"][0], true, dir, None) == Exec([first], Done(dir, built));
    assert RunSteps(env, reg, "b", 1, dir, None, built, f - 1) == Exec([], Done(dir, built));
    assert StepExec(env, reg, "b", 0, reg["b"][0], dir, true, None, f - 1) == RunLeaf(env, "b", 0, reg["b"][0], true, dir, None);
    assert [first] + [] == [first];
    assert inner == Exec([first], Done(dir, built));
    assert StepExec(env, reg, "a", 0, reg["a"][0], dir, true, None, f) == inner;
    var minified := Some(tools(terser, built).contents);
    var second := Dispatched("a", 1, false, terser, built);
    assert RunLeaf(env, "a", 1, reg["a"][1], false, dir, built) == Exec([second], Done(dir, minified));
    assert RunSteps(env, reg, "a", 2, dir, None, minified, f) == Exec([], Done(dir, minified));
    assert StepExec(env, reg, "a", 1, reg["a"][1], dir, false, built, f) == RunLeaf(env, "a", 1, reg["a"][1], false, dir, built);
    assert [second] + [] == [second];
    assert RunSteps(env, reg, "a", 1, dir, None, built, f) == Exec([second], Done(dir, minified));
    assert RunSteps(env, reg, "a", 0, dir, None, None, f) == Exec([first, second], Done(dir, minified));
  }

  /** A workflow of one terser step completes in any environment where
      terser reports output, even one whose qjsc fails on every input:
      only the calls the run makes matter. */
  lemma TerserOnlyCompletes(entrypoint: string, dir: string, tools: (Call, Option<seq<byte>>) -> ToolResult,
                            minify: seq<string>, fuel: nat)
    requires dir != "" && fuel >= 1
    requires forall c: Call, s :: c.TerserCall? ==> tools(c, s).ToolOutput?
    ensures var step := Step("", "terser", Some(minify), None);
            var r := Run(Env(entrypoint, Some(dir), tools), map["w" := [step]], "w", "", None, None, fuel);
      r.outcome.Done? && |Dispatches(r.trace)| == 1
  {
    var step := Step("", "terser", Some(minify), None);
    var reg := map["w" := [step]];
    var env := Env(entrypoint, Some(dir), tools);
    var leaves := [Leaf("w", 0, step)];
    assert ExpandStep(reg, "w", 0, fuel - 1) == Expanded(leaves, true);
    assert ExpandSteps(reg, "w", 1, fuel - 1) == Expanded([], true);
    assert leaves + [] == leaves;
    assert Expand(reg, "w", fuel) == Expanded(leaves, true);
    var call := LeafCall(entrypoint, "w", 0, step, true, dir);
    assert call.Success? && call.value.TerserCall?;
    assert Accepted(env, leaves[1..], dir, false, Some(Finish(call.value, tools(call.value, None)).value));
    RunCompletes(env, reg, "w", "", None, None, fuel);
  }

  function QjscStep(): Step
  {
    Step("", "qjsc", None, None)
  }

  /** A workflow of one qjsc step run from the command line: the written
      artifact is exactly what the extraction parser makes of the generated
      text, and a text it rejects ends the run. */
  lemma QjscOnly(exeDir: string, flows: string, fs: string -> FileState, args: seq<string>, out: string,
                 dir: string, tools: (Call, Option<seq<byte>>) -> ToolResult, generated: seq<byte>, fuel: nat)
    requires Arg(args, 0) == "workflow" && fuel >= 1 && dir != ""
    requires var reg := LoadedRegistry(exeDir, flows, fs);
      Normalize(Arg(args, 1)) in reg && reg[Normalize(Arg(args, 1))] == [QjscStep()]
    requires tools(QjscPreset(Arg(args, 2), dir, true), None) == ToolOutput(generated)
    ensures var r := WorkflowCommand(exeDir, flows, fs, args, out, Some(dir), tools, fuel);
      match Extract(generated)
      case Success(bytes) => r == Success(Written(out, bytes))
      case Failure(e) => r == Failure(RunFailed(StepFailed(MalformedScript(e))))
  {
    var reg := LoadedRegistry(exeDir, flows, fs);
    var name := Normalize(Arg(args, 1));
    var env := CommandEnv(args, Some(dir), tools);
    var call := QjscPreset(Arg(args, 2), dir, true);
    var leaf := RunLeaf(env, name, 0, QjscStep(), true, dir, None);
    assert LeafCall(env.entrypoint, name, 0, QjscStep(), true, dir) == Success(call);
    match Extract(generated)
    case Success(bytes) =>
      assert leaf == Exec([Dispatched(name, 0, true, call, None)], Done(dir, Some(bytes)));
      assert RunSteps(env, reg, name, 1, dir, None, Some(bytes), fuel - 1) == Exec([], Done(dir, Some(bytes)));
      assert RunSteps(env, reg, name, 0, dir, None, None, fuel - 1).outcome == Done(dir, Some(bytes));
    case Failure(e) =>
      assert leaf.outcome == Fatal(StepFailed(MalformedScript(e)));
      assert RunSteps(env, reg, name, 0, dir, None, None, fuel - 1).outcome == Fatal(StepFailed(MalformedScript(e)));
  }

  /** When qjsc's generated text holds the array of `bytes`, laid out with
      any blank runs and in either hex case (and no brace before it), the
      command writes exactly `bytes`. */
  lemma QjscOnlyRoundTrip(exeDir: string, flows: string, fs: string -> FileState, args: seq<string>, out: string,
                          dir: string, tools: (Call, Option<seq<byte>>) -> ToolResult,
                          pre: seq<byte>, bytes: seq<byte>, ls: seq<Layout>, last: seq<byte>, post: seq<byte>, fuel: nat)
    requires Arg(args, 0) == "workflow" && fuel >= 1 && dir != ""
    requires var reg := LoadedRegistry(exeDir, flows, fs);
      Normalize(Arg(args, 1)) in reg && reg[Normalize(Arg(args, 1))] == [QjscStep()]
    requires OpenBrace !in pre && |ls| == |bytes| && Blanks(ls) && Blank(last)
    requires tools(QjscPreset(Arg(args, 2), dir, true), None) == ToolOutput(pre + Render(bytes, ls, last) + post)
    ensures WorkflowCommand(exeDir, flows, fs, args, out, Some(dir), tools, fuel) == Success(Written(out, bytes))
  {
    RenderRoundTrip(pre, bytes, ls, last, post);
    QjscOnly(exeDir, flows, fs, args, out, dir, tools, pre + Render(bytes, ls, last) + post, fuel);
  }
}
