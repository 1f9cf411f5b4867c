/** The workflow executor, `runWorkflow` (main.go:201-262), as a pure
    function. A run produces the trace of what it did (the temporary
    directory it created and every tool call it dispatched, in order) and
    either the working directory with the final script or the fatal error
    that ended it. */
module Executor {
  import opened Results
  import opened Bytes
  import opened Adapters
  import opened Presets

  /** `seen` is the working script the dispatched call found in its
      directory (None when no step has written one yet). */
  datatype Event =
    | TempDirCreated(dir: string)
    | Dispatched(workflow: string, index: nat, first: bool, call: Call, seen: Option<seq<byte>>)

  /** Every way a run ends with log.Fatal (or a panic inside an adapter). */
  datatype RunError =
    | WorkflowNotFound(name: string)
    | WorkflowEmpty(name: string)
    | TempDirFailed
    | MissingEsbuildOptions(workflow: string, index: nat)
    | UnknownUtil(util: string, workflow: string, index: nat)
    | StepFailed(error: AdapterError)
      /** The nesting bound ran out: stands for Go's stack overflow on a
          registry whose ReuseWorkflow references form a cycle. */
    | NestingTooDeep(name: string)

  /** `script` is the content of the working script: None until a step has
      written it. */
  datatype Outcome = Done(wdir: string, script: Option<seq<byte>>) | Fatal(failure: RunError)

  datatype Exec = Exec(trace: seq<Event>, outcome: Outcome)

  /** What the executor cannot see: the caller's entrypoint (a global in the
      source), the directory MkdirTemp would create (None when it fails),
      and what each external tool reports for a given call when the working
      script holds the given content. */
  datatype Env = Env(entrypoint: string, tempDir: Option<string>, tools: (Call, Option<seq<byte>>) -> ToolResult)

  /** Whether step `i` of a call reads the entrypoint: a pending override is
      used (and thereby consumed) by the first step it meets, otherwise only
      index 0 is first (main.go:221-227). */
  function StepFirst(pending: Option<bool>, i: nat): bool
  {
    if pending.Some? then pending.value else i == 0
  }

  /** The `switch set.Util` of main.go:234-258 for a step that reuses no
      workflow. */
  function LeafCall(entrypoint: string, workflow: string, i: nat, step: Step, first: bool, wdir: string): (r: Result<Call, RunError>)
    ensures r.Success? <==>
      (step.util == "esbuild" && step.esbuildOptions.Some?) || step.util == "terser" || step.util == "qjsc"
    ensures r.Success? ==> ToolName(r.value) == step.util && Selects(r.value, entrypoint, wdir, first)
    ensures step.util == "esbuild" && step.esbuildOptions.None? ==> r == Failure(MissingEsbuildOptions(workflow, i))
    ensures step.util !in {"esbuild", "terser", "qjsc"} ==> r == Failure(UnknownUtil(step.util, workflow, i))
    ensures r.Success? && step.util == "esbuild" ==> r.value.options.settings == step.esbuildOptions.value.settings
    ensures r.Success? && step.util == "terser" ==>
      var args := r.value.args; |args| >= 3 && args[1..|args| - 2] == step.options.GetOr([])
  {
    if step.util == "esbuild" then
      if step.esbuildOptions.None? then Failure(MissingEsbuildOptions(workflow, i))
      else Success(EsbuildPreset(entrypoint, wdir, first, step.esbuildOptions.value))
    else if step.util == "terser" then
      Success(TerserPreset(entrypoint, wdir, first, step.options.GetOr([])))
    else if step.util == "qjsc" then
      Success(QjscPreset(entrypoint, wdir, first))
    else Failure(UnknownUtil(step.util, workflow, i))
  }

  /** One tool step on the working script `script`: dispatch, then let the
      adapter interpret the tool's report. */
  function RunLeaf(env: Env, workflow: string, i: nat, step: Step, first: bool, wdir: string,
                   script: Option<seq<byte>>): Exec
  {
    match LeafCall(env.entrypoint, workflow, i, step, first, wdir)
    case Failure(f) => Exec([], Fatal(f))
    case Success(call) =>
      var events := [Dispatched(workflow, i, first, call, script)];
      match Finish(call, env.tools(call, script))
      case Failure(e) => Exec(events, Fatal(StepFailed(e)))
      case Success(next) => Exec(events, Done(wdir, Some(next)))
  }

  /** `runWorkflow(name, wdir, nested)`; `wdir == ""` asks for a fresh
      temporary directory. At most `fuel` calls may be active at once. */
  function Run(env: Env, reg: Registry, name: string, wdir: string, nested: Option<bool>,
               script: Option<seq<byte>>, fuel: nat): (r: Exec)
    ensures name !in reg ==> r == Exec([], Fatal(WorkflowNotFound(name)))
    ensures name in reg && |reg[name]| == 0 ==> r == Exec([], Fatal(WorkflowEmpty(name)))
    decreases fuel, 2, 0
  {
    if name !in reg then Exec([], Fatal(WorkflowNotFound(name)))
    else if |reg[name]| == 0 then Exec([], Fatal(WorkflowEmpty(name)))
    else if fuel == 0 then Exec([], Fatal(NestingTooDeep(name)))
    else if wdir != "" then RunSteps(env, reg, name, 0, wdir, nested, script, fuel - 1)
    else match env.tempDir
      case None => Exec([], Fatal(TempDirFailed))
      case Some(dir) =>
        var rest := RunSteps(env, reg, name, 0, dir, nested, script, fuel - 1);
        Exec([TempDirCreated(dir)] + rest.trace, rest.outcome)
  }

  /** The loop of runWorkflow from step `i` on; `pending` is the override
      not yet consumed. */
  function RunSteps(env: Env, reg: Registry, name: string, i: nat, wdir: string,
                    pending: Option<bool>, script: Option<seq<byte>>, fuel: nat): Exec
    requires name in reg && i <= |reg[name]|
    decreases fuel + 1, 1, |reg[name]| - i
  {
    if i == |reg[name]| then Exec([], Done(wdir, script))
    else
      var head := StepExec(env, reg, name, i, reg[name][i], wdir, StepFirst(pending, i), script, fuel);
      match head.outcome
      case Fatal(_) => head
      case Done(_, next) =>
        var tail := RunSteps(env, reg, name, i + 1, wdir, None, next, fuel);
        Exec(head.trace + tail.trace, tail.outcome)
  }

  /** One step: a non-empty ReuseWorkflow runs that workflow in the same
      directory with this step's `first` as its override, whatever else the
      step says (main.go:229-232); otherwise the step is a tool step. */
  function StepExec(env: Env, reg: Registry, name: string, i: nat, step: Step, wdir: string, first: bool,
                    script: Option<seq<byte>>, fuel: nat): Exec
    decreases fuel + 1, 0, 0
  {
    if step.reuseWorkflow != "" then Run(env, reg, step.reuseWorkflow, wdir, Some(first), script, fuel)
    else RunLeaf(env, name, i, step, first, wdir, script)
  }

  /** A top-level run (main.go:305): no directory, no override, no script yet. */
  function RunTop(env: Env, reg: Registry, name: string, fuel: nat): Exec
  {
    Run(env, reg, name, "", None, None, fuel)
  }

  // ---------------------------------------------------------------------
  // Properties of a run

  /** The dispatched tool calls of a trace, in order. */
  function Dispatches(t: seq<Event>): (ds: seq<Event>)
    ensures forall j :: 0 <= j < |ds| ==> ds[j].Dispatched?
  {
    if |t| == 0 then []
    else (if t[0].Dispatched? then [t[0]] else []) + Dispatches(t[1..])
  }

  lemma {:induction false} DispatchesAppend(a: seq<Event>, b: seq<Event>)
    ensures Dispatches(a + b) == Dispatches(a) + Dispatches(b)
    decreases |a|
  {
    if |a| == 0 {
      assert a + b == b;
    } else {
      assert (a + b)[1..] == a[1..] + b;
      DispatchesAppend(a[1..], b);
    }
  }

  predicate NoTempDir(t: seq<Event>)
  {
    forall j :: 0 <= j < |t| ==> !t[j].TempDirCreated?
  }

  /** Only the earliest dispatched call may be marked first, and it is marked
      exactly when `first` says so. */
  predicate FirstOnly(ds: seq<Event>, first: bool)
    requires forall j :: 0 <= j < |ds| ==> ds[j].Dispatched?
  {
    && (forall j :: 0 < j < |ds| ==> !ds[j].first)
    && (|ds| > 0 ==> ds[0].first == first)
  }

  /** Every dispatched call works in `dir` and reads the entrypoint exactly
      when it is marked first, the working script otherwise. */
  predicate Consistent(ds: seq<Event>, entrypoint: string, dir: string)
    requires forall j :: 0 <= j < |ds| ==> ds[j].Dispatched?
  {
    forall j :: 0 <= j < |ds| ==> Selects(ds[j].call, entrypoint, dir, ds[j].first)
  }

  /** The working script a dispatched call leaves behind, as its adapter
      makes it from the tool's report. */
  function Output(env: Env, d: Event): Result<seq<byte>, AdapterError>
    requires d.Dispatched?
  {
    Finish(d.call, env.tools(d.call, d.seen))
  }

  /** Each dispatched call works on the script the previous one left, the
      earliest on `start`. */
  predicate Chained(env: Env, ds: seq<Event>, start: Option<seq<byte>>)
    requires forall j :: 0 <= j < |ds| ==> ds[j].Dispatched?
  {
    && (|ds| > 0 ==> ds[0].seen == start)
    && forall j :: 0 <= j < |ds| - 1 ==>
         Output(env, ds[j]).Success? && ds[j + 1].seen == Some(Output(env, ds[j]).value)
  }

  /** A run that completed dispatched something, and its script is what the
      adapter of the last dispatched call produced. */
  predicate EndsWithLast(env: Env, ds: seq<Event>, outcome: Outcome)
    requires forall j :: 0 <= j < |ds| ==> ds[j].Dispatched?
  {
    outcome.Done? ==>
      && |ds| > 0
      && outcome.script.Some?
      && Output(env, ds[|ds| - 1]) == Success(outcome.script.value)
  }

  /** What a run inside the given directory `wdir`, started on the working
      script `start`, guarantees: it creates no directory, every call it
      dispatches works in `wdir` on the script the previous one left, only
      its earliest dispatched call can be first (and is so exactly when
      `first` says), and it hands `wdir` back. */
  predicate Shaped(env: Env, r: Exec, wdir: string, first: bool, start: Option<seq<byte>>)
  {
    var ds := Dispatches(r.trace);
    && NoTempDir(r.trace)
    && FirstOnly(ds, first)
    && Consistent(ds, env.entrypoint, wdir)
    && Chained(env, ds, start)
    && (r.outcome.Done? ==> r.outcome.wdir == wdir)
  }

  /** A step that completed followed by the rest of the loop. */
  lemma {:induction false} ShapedAppend(env: Env, head: Exec, tail: Exec, wdir: string, first: bool,
                                        start: Option<seq<byte>>)
    requires Shaped(env, head, wdir, first, start) && EndsWithLast(env, Dispatches(head.trace), head.outcome)
    requires head.outcome.Done?
    requires Shaped(env, tail, wdir, false, head.outcome.script)
    requires tail.outcome.Done? && Dispatches(tail.trace) == [] ==> tail.outcome.script == head.outcome.script
    requires |Dispatches(tail.trace)| > 0 ==> EndsWithLast(env, Dispatches(tail.trace), tail.outcome)
    ensures var r := Exec(head.trace + tail.trace, tail.outcome);
      Shaped(env, r, wdir, first, start) && EndsWithLast(env, Dispatches(r.trace), r.outcome)
  {
    DispatchesAppend(head.trace, tail.trace);
    var hs := Dispatches(head.trace);
    var ts := Dispatches(tail.trace);
    var t := head.trace + tail.trace;
    forall j | 0 <= j < |t| ensures !t[j].TempDirCreated? {
      if j >= |head.trace| {
        assert t[j] == tail.trace[j - |head.trace|];
      }
    }
    var ds := hs + ts;
    if |ts| == 0 {
      assert ds == hs;
    } else {
      assert ds[|ds| - 1] == ts[|ts| - 1];
      forall j | 0 <= j < |ds| - 1
        ensures Output(env, ds[j]).Success? && ds[j + 1].seen == Some(Output(env, ds[j]).value)
      {
        if j + 1 < |hs| {
          assert ds[j] == hs[j] && ds[j + 1] == hs[j + 1];
        } else if j + 1 == |hs| {
          assert ds[j] == hs[|hs| - 1] && ds[j + 1] == ts[0];
        } else {
          assert ds[j] == ts[j - |hs|] && ds[j + 1] == ts[j + 1 - |hs|];
        }
      }
    }
  }

  /** What a call of runWorkflow guarantees: when it is given no directory
      it creates one, first of all, and runs everything inside it; when it is
      given one it creates none; its earliest dispatched call is first
      exactly when the override (or its absence) says so, no later call is;
      and a completed run returns its directory with the last step's output
      as the script. */
  lemma {:induction false} RunShape(env: Env, reg: Registry, name: string, wdir: string,
                                    nested: Option<bool>, script: Option<seq<byte>>, fuel: nat)
    requires wdir != "" || env.tempDir != Some("")
    ensures var r := Run(env, reg, name, wdir, nested, script, fuel);
            var dir := if wdir == "" then env.tempDir.GetOr("") else wdir;
      && (wdir != "" ==> NoTempDir(r.trace))
      && (forall j :: 0 < j < |r.trace| ==> !r.trace[j].TempDirCreated?)
      && (wdir == "" && |r.trace| > 0 ==> r.trace[0] == TempDirCreated(dir))
      && FirstOnly(Dispatches(r.trace), nested.GetOr(true))
      && Consistent(Dispatches(r.trace), env.entrypoint, dir)
      && Chained(env, Dispatches(r.trace), script)
      && (r.outcome.Done? ==> r.outcome.wdir == dir)
      && EndsWithLast(env, Dispatches(r.trace), r.outcome)
    decreases fuel, 2, 0
  {
    var r := Run(env, reg, name, wdir, nested, script, fuel);
    if name in reg && |reg[name]| > 0 && fuel > 0 {
      if wdir != "" {
        RunStepsShape(env, reg, name, 0, wdir, nested, script, fuel - 1);
      } else if env.tempDir.Some? {
        var dir := env.tempDir.value;
        var rest := RunSteps(env, reg, name, 0, dir, nested, script, fuel - 1);
        RunStepsShape(env, reg, name, 0, dir, nested, script, fuel - 1);
        TempDirFirst(dir, rest.trace);
      }
    }
  }

  /** Creating the directory in front of a trace that creates none. */
  lemma TempDirFirst(dir: string, rest: seq<Event>)
    requires NoTempDir(rest)
    ensures var t := [TempDirCreated(dir)] + rest;
      && t[0] == TempDirCreated(dir)
      && (forall j :: 0 < j < |t| ==> !t[j].TempDirCreated?)
      && Dispatches(t) == Dispatches(rest)
  {
    var t := [TempDirCreated(dir)] + rest;
    DispatchesAppend([TempDirCreated(dir)], rest);
    assert Dispatches([TempDirCreated(dir)]) == [];
    forall j | 0 < j < |t| ensures !t[j].TempDirCreated? {
      assert t[j] == rest[j - 1];
    }
  }

  lemma {:induction false} RunStepsShape(env: Env, reg: Registry, name: string, i: nat, wdir: string,
                                         pending: Option<bool>, script: Option<seq<byte>>, fuel: nat)
    requires name in reg && i <= |reg[name]| && wdir != ""
    ensures var r := RunSteps(env, reg, name, i, wdir, pending, script, fuel);
      && Shaped(env, r, wdir, StepFirst(pending, i), script)
      && (i < |reg[name]| ==> EndsWithLast(env, Dispatches(r.trace), r.outcome))
      && (i == |reg[name]| ==> r == Exec([], Done(wdir, script)))
    decreases fuel + 1, 1, |reg[name]| - i
  {
    if i < |reg[name]| {
      var first := StepFirst(pending, i);
      var head := StepExec(env, reg, name, i, reg[name][i], wdir, first, script, fuel);
      StepExecShape(env, reg, name, i, reg[name][i], wdir, first, script, fuel);
      if head.outcome.Done? {
        RunStepsShape(env, reg, name, i + 1, wdir, None, head.outcome.script, fuel);
        var tail := RunSteps(env, reg, name, i + 1, wdir, None, head.outcome.script, fuel);
        ShapedAppend(env, head, tail, wdir, first, script);
      }
    }
  }

  lemma {:induction false} StepExecShape(env: Env, reg: Registry, name: string, i: nat, step: Step,
                                         wdir: string, first: bool, script: Option<seq<byte>>, fuel: nat)
    requires wdir != ""
    ensures var r := StepExec(env, reg, name, i, step, wdir, first, script, fuel);
      Shaped(env, r, wdir, first, script) && EndsWithLast(env, Dispatches(r.trace), r.outcome)
    decreases fuel + 1, 0, 0
  {
    if step.reuseWorkflow != "" {
      RunShape(env, reg, step.reuseWorkflow, wdir, Some(first), script, fuel);
    } else {
      LeafShape(env, name, i, step, wdir, first, script);
    }
  }

  /** A tool step dispatches at most the one call, in `wdir`, on `script`. */
  lemma LeafShape(env: Env, name: string, i: nat, step: Step, wdir: string, first: bool, script: Option<seq<byte>>)
    requires wdir != ""
    ensures var r := RunLeaf(env, name, i, step, first, wdir, script);
      Shaped(env, r, wdir, first, script) && EndsWithLast(env, Dispatches(r.trace), r.outcome)
  {
    var r := RunLeaf(env, name, i, step, first, wdir, script);
    match LeafCall(env.entrypoint, name, i, step, first, wdir)
    case Failure(_) =>
      assert r.trace == [];
    case Success(call) =>
      var d := Dispatched(name, i, first, call, script);
      assert r.trace == [d];
      assert Dispatches(r.trace) == [d] by {
        assert r.trace[1..] == [];
      }
  }

  /** A step that names a workflow to reuse runs that workflow; its Util and
      options are never looked at. */
  lemma ReuseIgnoresUtil(env: Env, reg: Registry, name: string, i: nat, s1: Step, s2: Step,
                         wdir: string, first: bool, script: Option<seq<byte>>, fuel: nat)
    requires s1.reuseWorkflow != "" && s2.reuseWorkflow == s1.reuseWorkflow
    ensures StepExec(env, reg, name, i, s1, wdir, first, script, fuel)
         == StepExec(env, reg, name, i, s2, wdir, first, script, fuel)
         == Run(env, reg, s1.reuseWorkflow, wdir, Some(first), script, fuel)
  {
  }
}
