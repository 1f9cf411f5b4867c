/** A reference reading of a workflow: the flat list of tool steps obtained
    by replacing every ReuseWorkflow step with the steps of the workflow it
    names, recursively. It ignores directories, the `first` flag, dispatch
    and the tools; the lemmas here show that the executor dispatches exactly
    these steps, in this order, and that in a top-level run only the first of
    them reads the entrypoint. */
module Expansion {
  import opened Results
  import opened Bytes
  import opened Adapters
  import opened Presets
  import opened Seqs
  import opened Executor

  /** Step `index` of workflow `workflow`, a tool step. */
  datatype Leaf = Leaf(workflow: string, index: nat, step: Step)

  /** The leaves found, and whether the expansion reached the end (it stops
      at an unknown or empty workflow or when the nesting bound runs out). */
  datatype Expanded = Expanded(leaves: seq<Leaf>, complete: bool)

  predicate IsLeafOf(reg: Registry, l: Leaf)
  {
    && l.workflow in reg
    && l.index < |reg[l.workflow]|
    && reg[l.workflow][l.index] == l.step
    && l.step.reuseWorkflow == ""
  }

  predicate AllLeavesOf(reg: Registry, ls: seq<Leaf>)
  {
    forall j :: 0 <= j < |ls| ==> IsLeafOf(reg, ls[j])
  }

  function Expand(reg: Registry, name: string, fuel: nat): (x: Expanded)
    ensures AllLeavesOf(reg, x.leaves)
    ensures x.complete ==> |x.leaves| > 0
    decreases fuel, 2, 0
  {
    if name !in reg || |reg[name]| == 0 || fuel == 0 then Expanded([], false)
    else ExpandSteps(reg, name, 0, fuel - 1)
  }

  function ExpandSteps(reg: Registry, name: string, i: nat, fuel: nat): (x: Expanded)
    requires name in reg && i <= |reg[name]|
    ensures AllLeavesOf(reg, x.leaves)
    ensures x.complete && i < |reg[name]| ==> |x.leaves| > 0
    decreases fuel + 1, 1, |reg[name]| - i
  {
    if i == |reg[name]| then Expanded([], true)
    else
      var head := ExpandStep(reg, name, i, fuel);
      if !head.complete then head
      else
        var tail := ExpandSteps(reg, name, i + 1, fuel);
        Expanded(head.leaves + tail.leaves, tail.complete)
  }

  function ExpandStep(reg: Registry, name: string, i: nat, fuel: nat): (x: Expanded)
    requires name in reg && i < |reg[name]|
    ensures AllLeavesOf(reg, x.leaves)
    ensures x.complete ==> |x.leaves| > 0
    decreases fuel + 1, 0, 0
  {
    var step := reg[name][i];
    if step.reuseWorkflow != "" then Expand(reg, step.reuseWorkflow, fuel)
    else Expanded([Leaf(name, i, step)], true)
  }

  /** The dispatched calls `ds` are the first |ds| leaves, each dispatched as
      that leaf's Util prescribes, inside `dir`. */
  predicate Follows(entrypoint: string, ds: seq<Event>, ls: seq<Leaf>, dir: string)
    requires forall j :: 0 <= j < |ds| ==> ds[j].Dispatched?
  {
    && |ds| <= |ls|
    && forall j :: 0 <= j < |ds| ==>
         && ds[j].workflow == ls[j].workflow
         && ds[j].index == ls[j].index
         && LeafCall(entrypoint, ls[j].workflow, ls[j].index, ls[j].step, ds[j].first, dir) == Success(ds[j].call)
  }

  /** The run's dispatches follow the expansion; a completed run has gone
      through all of it. */
  predicate Agrees(entrypoint: string, r: Exec, x: Expanded, dir: string)
  {
    && Follows(entrypoint, Dispatches(r.trace), x.leaves, dir)
    && (r.outcome.Done? ==> x.complete && |Dispatches(r.trace)| == |x.leaves|)
  }

  lemma FollowsExtend(entrypoint: string, ds: seq<Event>, ls: seq<Leaf>, more: seq<Leaf>, dir: string)
    requires forall j :: 0 <= j < |ds| ==> ds[j].Dispatched?
    requires Follows(entrypoint, ds, ls, dir)
    ensures Follows(entrypoint, ds, ls + more, dir)
  {
    assert forall j :: 0 <= j < |ls| ==> (ls + more)[j] == ls[j];
  }

  lemma FollowsAppend(entrypoint: string, ds1: seq<Event>, ls1: seq<Leaf>, ds2: seq<Event>, ls2: seq<Leaf>, dir: string)
    requires forall j :: 0 <= j < |ds1| ==> ds1[j].Dispatched?
    requires forall j :: 0 <= j < |ds2| ==> ds2[j].Dispatched?
    requires Follows(entrypoint, ds1, ls1, dir) && |ds1| == |ls1|
    requires Follows(entrypoint, ds2, ls2, dir)
    ensures Follows(entrypoint, ds1 + ds2, ls1 + ls2, dir)
  {
    var ds := ds1 + ds2;
    var ls := ls1 + ls2;
    forall j | |ds1| <= j < |ds|
      ensures ds[j] == ds2[j - |ds1|] && ls[j] == ls2[j - |ds1|]
    {
    }
  }

  lemma {:induction false} RunAgrees(env: Env, reg: Registry, name: string, wdir: string,
                                     nested: Option<bool>, script: Option<seq<byte>>, fuel: nat)
    requires wdir != "" || env.tempDir != Some("")
    ensures var r := Run(env, reg, name, wdir, nested, script, fuel);
      Agrees(env.entrypoint, r, Expand(reg, name, fuel), if wdir == "" then env.tempDir.GetOr("") else wdir)
    decreases fuel, 2, 0
  {
    var r := Run(env, reg, name, wdir, nested, script, fuel);
    if name in reg && |reg[name]| > 0 && fuel > 0 {
      if wdir != "" {
        RunStepsAgree(env, reg, name, 0, wdir, nested, script, fuel - 1);
      } else if env.tempDir.Some? {
        var dir := env.tempDir.value;
        var rest := RunSteps(env, reg, name, 0, dir, nested, script, fuel - 1);
        RunStepsAgree(env, reg, name, 0, dir, nested, script, fuel - 1);
        DispatchesAppend([TempDirCreated(dir)], rest.trace);
        assert Dispatches([TempDirCreated(dir)]) == [];
        assert Dispatches(r.trace) == Dispatches(rest.trace);
      }
    }
  }

  lemma {:induction false} RunStepsAgree(env: Env, reg: Registry, name: string, i: nat, wdir: string,
                                         pending: Option<bool>, script: Option<seq<byte>>, fuel: nat)
    requires name in reg && i <= |reg[name]| && wdir != ""
    ensures var r := RunSteps(env, reg, name, i, wdir, pending, script, fuel);
      Agrees(env.entrypoint, r, ExpandSteps(reg, name, i, fuel), wdir)
    decreases fuel + 1, 1, |reg[name]| - i
  {
    if i < |reg[name]| {
      var first := StepFirst(pending, i);
      var head := StepExec(env, reg, name, i, reg[name][i], wdir, first, script, fuel);
      var hx := ExpandStep(reg, name, i, fuel);
      StepExecAgrees(env, reg, name, i, wdir, first, script, fuel);
      if hx.complete {
        var tx := ExpandSteps(reg, name, i + 1, fuel);
        assert ExpandSteps(reg, name, i, fuel) == Expanded(hx.leaves + tx.leaves, tx.complete);
        if head.outcome.Done? {
          var tail := RunSteps(env, reg, name, i + 1, wdir, None, head.outcome.script, fuel);
          RunStepsAgree(env, reg, name, i + 1, wdir, None, head.outcome.script, fuel);
          AgreesAppend(env.entrypoint, head, tail, hx, tx, wdir);
        } else {
          FollowsExtend(env.entrypoint, Dispatches(head.trace), hx.leaves, tx.leaves, wdir);
        }
      }
    }
  }

  lemma {:induction false} StepExecAgrees(env: Env, reg: Registry, name: string, i: nat, wdir: string,
                                          first: bool, script: Option<seq<byte>>, fuel: nat)
    requires name in reg && i < |reg[name]| && wdir != ""
    ensures var r := StepExec(env, reg, name, i, reg[name][i], wdir, first, script, fuel);
      Agrees(env.entrypoint, r, ExpandStep(reg, name, i, fuel), wdir)
    decreases fuel + 1, 0, 0
  {
    var step := reg[name][i];
    if step.reuseWorkflow != "" {
      RunAgrees(env, reg, step.reuseWorkflow, wdir, Some(first), script, fuel);
    } else {
      LeafAgrees(env, name, i, step, wdir, first, script, fuel);
    }
  }

  lemma LeafAgrees(env: Env, name: string, i: nat, step: Step, wdir: string, first: bool,
                   script: Option<seq<byte>>, fuel: nat)
    requires step.reuseWorkflow == ""
    ensures var r := RunLeaf(env, name, i, step, first, wdir, script);
      Agrees(env.entrypoint, r, Expanded([Leaf(name, i, step)], true), wdir)
  {
    var r := RunLeaf(env, name, i, step, first, wdir, script);
    match LeafCall(env.entrypoint, name, i, step, first, wdir)
    case Failure(_) =>
      assert r.trace == [];
    case Success(call) =>
      var d := Dispatched(name, i, first, call, script);
      assert r.trace == [d];
      assert Dispatches(r.trace) == [d] by {
        assert r.trace[1..] == [];
      }
  }

  /** A completed step followed by the rest of the loop agrees with the
      step's leaves followed by the rest's. */
  lemma AgreesAppend(entrypoint: string, head: Exec, tail: Exec, hx: Expanded, tx: Expanded, dir: string)
    requires head.outcome.Done? && Agrees(entrypoint, head, hx, dir) && Agrees(entrypoint, tail, tx, dir)
    ensures Agrees(entrypoint, Exec(head.trace + tail.trace, tail.outcome), Expanded(hx.leaves + tx.leaves, tx.complete), dir)
  {
    DispatchesAppend(head.trace, tail.trace);
    FollowsAppend(entrypoint, Dispatches(head.trace), hx.leaves, Dispatches(tail.trace), tx.leaves, dir);
  }

  /** The first-step rule of a top-level run: the run creates its directory
      before anything else and dispatches the steps of the fully expanded
      workflow in order, each in that directory and as its Util prescribes;
      the first of them, and only that one, reads the entrypoint. A run that
      fails has dispatched a prefix of those steps and nothing after. */
  lemma TopLevelRun(env: Env, reg: Registry, name: string, fuel: nat)
    requires env.tempDir != Some("")
    ensures var r := RunTop(env, reg, name, fuel);
            var x := Expand(reg, name, fuel);
            var ds := Dispatches(r.trace);
            var dir := env.tempDir.GetOr("");
      && |ds| <= |x.leaves|
      && (forall j :: 0 <= j < |ds| ==>
            && ds[j].workflow == x.leaves[j].workflow
            && ds[j].index == x.leaves[j].index
            && ds[j].first == (j == 0)
            && LeafCall(env.entrypoint, x.leaves[j].workflow, x.leaves[j].index, x.leaves[j].step, j == 0, dir)
               == Success(ds[j].call))
      && (r.outcome.Done? ==>
            && x.complete
            && |ds| == |x.leaves|
            && r.outcome.wdir == dir
            && r.trace[0] == TempDirCreated(dir))
  {
    RunShape(env, reg, name, "", None, None, fuel);
    RunAgrees(env, reg, name, "", None, None, fuel);
    var r := RunTop(env, reg, name, fuel);
    var ds := Dispatches(r.trace);
    assert |ds| <= |r.trace|  by { DispatchesLength(r.trace); }
  }

  // ---------------------------------------------------------------------
  // Progress: a run of a complete expansion is the flat loop over its leaves

  /** The flat loop the nested run amounts to: dispatch the leaves one after
      the other in `dir`, only the earliest marked `first`, each on the
      script the previous one left, stopping at the first fatal step. */
  function RunLeaves(env: Env, ls: seq<Leaf>, dir: string, first: bool, script: Option<seq<byte>>): Exec
    decreases |ls|
  {
    if |ls| == 0 then Exec([], Done(dir, script))
    else
      var head := RunLeaf(env, ls[0].workflow, ls[0].index, ls[0].step, first, dir, script);
      match head.outcome
      case Fatal(_) => head
      case Done(_, next) =>
        var tail := RunLeaves(env, ls[1..], dir, false, next);
        Exec(head.trace + tail.trace, tail.outcome)
  }

  /** The flat loop over `a + b` runs `a`, then (unless `a` failed) `b` on
      what `a` left, with no leaf of `b` marked first. */
  lemma {:induction false} RunLeavesAppend(env: Env, a: seq<Leaf>, b: seq<Leaf>, dir: string, first: bool,
                                           script: Option<seq<byte>>)
    requires |a| > 0
    ensures var ra := RunLeaves(env, a, dir, first, script);
      ra.outcome.Fatal? ==> RunLeaves(env, a + b, dir, first, script) == ra
    ensures var ra := RunLeaves(env, a, dir, first, script);
      ra.outcome.Done? ==>
        var rb := RunLeaves(env, b, dir, false, ra.outcome.script);
        RunLeaves(env, a + b, dir, first, script) == Exec(ra.trace + rb.trace, rb.outcome)
    decreases |a|
  {
    var head := RunLeaf(env, a[0].workflow, a[0].index, a[0].step, first, dir, script);
    assert (a + b)[0] == a[0] && (a + b)[1..] == a[1..] + b;
    if head.outcome.Done? {
      var next := head.outcome.script;
      if |a| == 1 {
        assert a[1..] + b == b;
        assert head.trace + [] == head.trace;
      } else {
        RunLeavesAppend(env, a[1..], b, dir, false, next);
        var ra' := RunLeaves(env, a[1..], dir, false, next);
        if ra'.outcome.Done? {
          var rb := RunLeaves(env, b, dir, false, ra'.outcome.script);
          AppendAssoc(head.trace, ra'.trace, rb.trace);
        }
      }
    }
  }

  /** The flat loop only dispatches calls, at most one per leaf, and when
      it completes it has dispatched one for every leaf in `dir`. */
  lemma {:induction false} RunLeavesTrace(env: Env, ls: seq<Leaf>, dir: string, first: bool,
                                          script: Option<seq<byte>>)
    ensures var r := RunLeaves(env, ls, dir, first, script);
      && (forall j :: 0 <= j < |r.trace| ==> r.trace[j].Dispatched?)
      && |r.trace| <= |ls|
      && (r.outcome.Done? ==> |r.trace| == |ls| && r.outcome.wdir == dir)
    decreases |ls|
  {
    if |ls| > 0 {
      var head := RunLeaf(env, ls[0].workflow, ls[0].index, ls[0].step, first, dir, script);
      if head.outcome.Done? {
        RunLeavesTrace(env, ls[1..], dir, false, head.outcome.script);
      }
    }
  }

  /** The `k`-th leaf of a loop started with `first` cannot be dispatched
      in `dir`, with failure `f`: its Util is unknown, or esbuild lacks
      EsbuildOptions. */
  predicate StuckAt(env: Env, ls: seq<Leaf>, dir: string, first: bool, k: nat, f: RunError)
  {
    k < |ls| && LeafCall(env.entrypoint, ls[k].workflow, ls[k].index, ls[k].step, first && k == 0, dir) == Failure(f)
  }

  /** The last call of `ds` was dispatched and its adapter rejected the
      tool's report, which is failure `f`. */
  predicate Rejected(env: Env, ds: seq<Event>, f: RunError)
  {
    |ds| > 0 && ds[|ds| - 1].Dispatched? && Output(env, ds[|ds| - 1]).Failure?
    && f == StepFailed(Output(env, ds[|ds| - 1]).error)
  }

  lemma StuckShift(env: Env, ls: seq<Leaf>, dir: string, first: bool, k: nat, f: RunError)
    requires |ls| > 0 && StuckAt(env, ls[1..], dir, false, k, f)
    ensures StuckAt(env, ls, dir, first, k + 1, f)
  {
    assert ls[1..][k] == ls[k + 1];
  }

  lemma RejectedShift(env: Env, h: seq<Event>, ds: seq<Event>, f: RunError)
    requires Rejected(env, ds, f)
    ensures Rejected(env, h + ds, f)
  {
    assert (h + ds)[|h + ds| - 1] == ds[|ds| - 1];
  }

  /** How the flat loop fails: at the leaf it stopped at, either the
      step's Util cannot be dispatched (nothing was dispatched for it) or
      the adapter rejected the tool's report (the last call dispatched). */
  lemma {:induction false} RunLeavesFatal(env: Env, ls: seq<Leaf>, dir: string, first: bool,
                                          script: Option<seq<byte>>)
    ensures var r := RunLeaves(env, ls, dir, first, script);
      r.outcome.Fatal? ==>
        StuckAt(env, ls, dir, first, |r.trace|, r.outcome.failure) || Rejected(env, r.trace, r.outcome.failure)
    decreases |ls|
  {
    if |ls| > 0 {
      var r := RunLeaves(env, ls, dir, first, script);
      var head := RunLeaf(env, ls[0].workflow, ls[0].index, ls[0].step, first, dir, script);
      RunLeafCases(env, ls[0].workflow, ls[0].index, ls[0].step, first, dir, script);
      if head.outcome.Done? {
        var tail := RunLeaves(env, ls[1..], dir, false, head.outcome.script);
        assert r == Exec(head.trace + tail.trace, tail.outcome);
        assert |r.trace| == |tail.trace| + 1;
        if tail.outcome.Fatal? {
          RunLeavesFatal(env, ls[1..], dir, false, head.outcome.script);
          if StuckAt(env, ls[1..], dir, false, |tail.trace|, tail.outcome.failure) {
            StuckShift(env, ls, dir, first, |tail.trace|, tail.outcome.failure);
          } else {
            RejectedShift(env, head.trace, tail.trace, tail.outcome.failure);
          }
        }
      } else if |head.trace| == 0 {
        assert r == head;
        assert StuckAt(env, ls, dir, first, 0, r.outcome.failure);
      } else {
        assert r == head;
        assert Rejected(env, r.trace, r.outcome.failure);
      }
    }
  }

  /** One leaf: either nothing is dispatched and the Util is the cause, or
      one call is dispatched and the run goes on exactly when its adapter
      accepts the report. */
  lemma RunLeafCases(env: Env, workflow: string, i: nat, step: Step, first: bool, dir: string,
                     script: Option<seq<byte>>)
    ensures var r := RunLeaf(env, workflow, i, step, first, dir, script);
      && (|r.trace| == 0 ==> r.outcome == Fatal(LeafCall(env.entrypoint, workflow, i, step, first, dir).error))
      && (|r.trace| == 0 <==> LeafCall(env.entrypoint, workflow, i, step, first, dir).Failure?)
      && (|r.trace| != 0 ==>
            && r.trace == [Dispatched(workflow, i, first, LeafCall(env.entrypoint, workflow, i, step, first, dir).value, script)]
            && (r.outcome.Done? <==> Output(env, r.trace[0]).Success?)
            && (r.outcome.Done? ==> r.outcome == Done(dir, Some(Output(env, r.trace[0]).value)))
            && (r.outcome.Fatal? ==> r.outcome.failure == StepFailed(Output(env, r.trace[0]).error)))
  {
  }

  /** A run of a workflow whose expansion is complete is exactly the flat
      loop over the expansion's leaves, after creating the directory when
      it was given none; the only other way it ends is MkdirTemp failing. */
  lemma {:induction false} RunFlat(env: Env, reg: Registry, name: string, wdir: string,
                                   nested: Option<bool>, script: Option<seq<byte>>, fuel: nat)
    requires wdir != "" || env.tempDir != Some("")
    requires Expand(reg, name, fuel).complete
    ensures var r := Run(env, reg, name, wdir, nested, script, fuel);
            var dir := if wdir == "" then env.tempDir.GetOr("") else wdir;
            var flat := RunLeaves(env, Expand(reg, name, fuel).leaves, dir, nested.GetOr(true), script);
      && (wdir != "" ==> r == flat)
      && (wdir == "" && env.tempDir.Some? ==> r == Exec([TempDirCreated(dir)] + flat.trace, flat.outcome))
      && (wdir == "" && env.tempDir.None? ==> r == Exec([], Fatal(TempDirFailed)))
    decreases fuel, 2, 0
  {
    if wdir != "" {
      RunStepsFlat(env, reg, name, 0, wdir, nested, script, fuel - 1);
    } else if env.tempDir.Some? {
      RunStepsFlat(env, reg, name, 0, env.tempDir.value, nested, script, fuel - 1);
    }
  }

  lemma {:induction false} RunStepsFlat(env: Env, reg: Registry, name: string, i: nat, wdir: string,
                                        pending: Option<bool>, script: Option<seq<byte>>, fuel: nat)
    requires name in reg && i <= |reg[name]| && wdir != ""
    requires ExpandSteps(reg, name, i, fuel).complete
    ensures RunSteps(env, reg, name, i, wdir, pending, script, fuel)
         == RunLeaves(env, ExpandSteps(reg, name, i, fuel).leaves, wdir, StepFirst(pending, i), script)
    decreases fuel + 1, 1, |reg[name]| - i
  {
    if i < |reg[name]| {
      var first := StepFirst(pending, i);
      var head := StepExec(env, reg, name, i, reg[name][i], wdir, first, script, fuel);
      ExpandStepsCons(reg, name, i, fuel);
      StepFlat(env, reg, name, i, wdir, first, script, fuel);
      if head.outcome.Done? {
        RunStepsFlat(env, reg, name, i + 1, wdir, None, head.outcome.script, fuel);
      }
      StepsFlatGlue(env, reg, name, i, wdir, pending, script, fuel);
    }
  }

  /** One step of RunStepsFlat: the step's run and the rest's run, each
      flat, make the flat run of all the steps from `i`. */
  lemma StepsFlatGlue(env: Env, reg: Registry, name: string, i: nat, wdir: string,
                      pending: Option<bool>, script: Option<seq<byte>>, fuel: nat)
    requires name in reg && i < |reg[name]|
    requires ExpandStep(reg, name, i, fuel).complete && |ExpandStep(reg, name, i, fuel).leaves| > 0
    requires ExpandSteps(reg, name, i, fuel).leaves
          == ExpandStep(reg, name, i, fuel).leaves + ExpandSteps(reg, name, i + 1, fuel).leaves
    requires var head := StepExec(env, reg, name, i, reg[name][i], wdir, StepFirst(pending, i), script, fuel);
      head == RunLeaves(env, ExpandStep(reg, name, i, fuel).leaves, wdir, StepFirst(pending, i), script)
    requires var head := StepExec(env, reg, name, i, reg[name][i], wdir, StepFirst(pending, i), script, fuel);
      head.outcome.Done? ==>
        RunSteps(env, reg, name, i + 1, wdir, None, head.outcome.script, fuel)
        == RunLeaves(env, ExpandSteps(reg, name, i + 1, fuel).leaves, wdir, false, head.outcome.script)
    ensures RunSteps(env, reg, name, i, wdir, pending, script, fuel)
         == RunLeaves(env, ExpandSteps(reg, name, i, fuel).leaves, wdir, StepFirst(pending, i), script)
  {
    var first := StepFirst(pending, i);
    RunLeavesAppend(env, ExpandStep(reg, name, i, fuel).leaves, ExpandSteps(reg, name, i + 1, fuel).leaves,
                    wdir, first, script);
  }

  lemma ExpandStepsCons(reg: Registry, name: string, i: nat, fuel: nat)
    requires name in reg && i < |reg[name]|
    requires ExpandSteps(reg, name, i, fuel).complete
    ensures ExpandStep(reg, name, i, fuel).complete && ExpandSteps(reg, name, i + 1, fuel).complete
    ensures ExpandSteps(reg, name, i, fuel).leaves
         == ExpandStep(reg, name, i, fuel).leaves + ExpandSteps(reg, name, i + 1, fuel).leaves
  {
  }

  lemma {:induction false} StepFlat(env: Env, reg: Registry, name: string, i: nat, wdir: string,
                                    first: bool, script: Option<seq<byte>>, fuel: nat)
    requires name in reg && i < |reg[name]| && wdir != ""
    requires ExpandStep(reg, name, i, fuel).complete
    ensures StepExec(env, reg, name, i, reg[name][i], wdir, first, script, fuel)
         == RunLeaves(env, ExpandStep(reg, name, i, fuel).leaves, wdir, first, script)
    decreases fuel + 1, 0, 0
  {
    var step := reg[name][i];
    if step.reuseWorkflow != "" {
      RunFlat(env, reg, step.reuseWorkflow, wdir, Some(first), script, fuel);
    } else {
      var head := RunLeaf(env, name, i, step, first, wdir, script);
      assert [Leaf(name, i, step)][1..] == [];
      assert head.trace + [] == head.trace;
    }
  }

  /** Under a complete expansion and a usable directory, the calls a run
      dispatches and the way it ends are the flat loop's. */
  lemma RunFlatOutcome(env: Env, reg: Registry, name: string, wdir: string,
                       nested: Option<bool>, script: Option<seq<byte>>, fuel: nat)
    requires wdir != "" || (env.tempDir.Some? && env.tempDir.value != "")
    requires Expand(reg, name, fuel).complete
    ensures var r := Run(env, reg, name, wdir, nested, script, fuel);
            var dir := if wdir == "" then env.tempDir.GetOr("") else wdir;
            var flat := RunLeaves(env, Expand(reg, name, fuel).leaves, dir, nested.GetOr(true), script);
      Dispatches(r.trace) == flat.trace && r.outcome == flat.outcome
  {
    var dir := if wdir == "" then env.tempDir.GetOr("") else wdir;
    var flat := RunLeaves(env, Expand(reg, name, fuel).leaves, dir, nested.GetOr(true), script);
    RunFlat(env, reg, name, wdir, nested, script, fuel);
    RunLeavesTrace(env, Expand(reg, name, fuel).leaves, dir, nested.GetOr(true), script);
    FlatDispatches(dir, wdir == "", flat.trace);
  }

  /** Why a run ended fatally: the expansion of the workflow is incomplete
      (an unknown or empty workflow, or nesting deeper than `fuel`, which
      needs a reuse cycle once `fuel` exceeds the workflow's rank, see
      Nesting.RankedRun), MkdirTemp failed or
      gave no path, the next leaf's Util cannot be dispatched, or the
      adapter rejected the report of the last dispatched call. */
  lemma FatalCause(env: Env, reg: Registry, name: string, wdir: string,
                   nested: Option<bool>, script: Option<seq<byte>>, fuel: nat)
    ensures var r := Run(env, reg, name, wdir, nested, script, fuel);
            var x := Expand(reg, name, fuel);
            var ds := Dispatches(r.trace);
            var dir := if wdir == "" then env.tempDir.GetOr("") else wdir;
      r.outcome.Fatal? ==>
        || !x.complete
        || (wdir == "" && env.tempDir.None? && r == Exec([], Fatal(TempDirFailed)))
        || (wdir == "" && env.tempDir == Some(""))
        || StuckAt(env, x.leaves, dir, nested.GetOr(true), |ds|, r.outcome.failure)
        || Rejected(env, ds, r.outcome.failure)
  {
    var x := Expand(reg, name, fuel);
    if x.complete {
      if wdir != "" || (env.tempDir.Some? && env.tempDir.value != "") {
        var dir := if wdir == "" then env.tempDir.GetOr("") else wdir;
        RunFlatOutcome(env, reg, name, wdir, nested, script, fuel);
        RunLeavesFatal(env, x.leaves, dir, nested.GetOr(true), script);
      } else if env.tempDir.None? {
        RunFlat(env, reg, name, wdir, nested, script, fuel);
      }
    }
  }

  /** Every leaf of the flat loop can be dispatched and its adapter accepts
      the report the tool gives on the script the previous leaf left: only
      the calls the loop actually makes are asked about. */
  predicate Accepted(env: Env, ls: seq<Leaf>, dir: string, first: bool, script: Option<seq<byte>>)
    decreases |ls|
  {
    |ls| == 0 ||
      var call := LeafCall(env.entrypoint, ls[0].workflow, ls[0].index, ls[0].step, first, dir);
      && call.Success?
      && Finish(call.value, env.tools(call.value, script)).Success?
      && Accepted(env, ls[1..], dir, false, Some(Finish(call.value, env.tools(call.value, script)).value))
  }

  /** The flat loop completes exactly when its calls are accepted, and then
      it has dispatched every leaf and ends in `dir`. */
  lemma {:induction false} RunLeavesDone(env: Env, ls: seq<Leaf>, dir: string, first: bool,
                                         script: Option<seq<byte>>)
    ensures var r := RunLeaves(env, ls, dir, first, script);
      && (r.outcome.Done? <==> Accepted(env, ls, dir, first, script))
      && (r.outcome.Done? ==> r.outcome.wdir == dir && |r.trace| == |ls|)
    decreases |ls|
  {
    if |ls| > 0 {
      var call := LeafCall(env.entrypoint, ls[0].workflow, ls[0].index, ls[0].step, first, dir);
      if call.Success? && Finish(call.value, env.tools(call.value, script)).Success? {
        var next := Finish(call.value, env.tools(call.value, script)).value;
        RunLeavesDone(env, ls[1..], dir, false, Some(next));
      }
    }
  }

  /** The converse of RunAgrees: a workflow whose expansion is complete,
      run in a usable directory, completes exactly when every call of its
      flattened steps can be dispatched and has its report accepted, and
      then it has dispatched one call per flattened step. */
  lemma RunCompletes(env: Env, reg: Registry, name: string, wdir: string,
                     nested: Option<bool>, script: Option<seq<byte>>, fuel: nat)
    requires wdir != "" || (env.tempDir.Some? && env.tempDir.value != "")
    requires Expand(reg, name, fuel).complete
    ensures var r := Run(env, reg, name, wdir, nested, script, fuel);
            var dir := if wdir == "" then env.tempDir.GetOr("") else wdir;
      && (r.outcome.Done? <==> Accepted(env, Expand(reg, name, fuel).leaves, dir, nested.GetOr(true), script))
      && (r.outcome.Done? ==> |Dispatches(r.trace)| == |Expand(reg, name, fuel).leaves|)
  {
    var dir := if wdir == "" then env.tempDir.GetOr("") else wdir;
    RunFlatOutcome(env, reg, name, wdir, nested, script, fuel);
    RunLeavesDone(env, Expand(reg, name, fuel).leaves, dir, nested.GetOr(true), script);
  }

  /** The dispatched calls of a flat loop's trace, with or without the
      directory created in front, are the whole trace. */
  lemma FlatDispatches(dir: string, created: bool, t: seq<Event>)
    requires forall j :: 0 <= j < |t| ==> t[j].Dispatched?
    ensures Dispatches(t) == t
    ensures Dispatches([TempDirCreated(dir)] + t) == t
  {
    DispatchesAll(t);
    DispatchesAppend([TempDirCreated(dir)], t);
    assert Dispatches([TempDirCreated(dir)]) == [];
  }

  lemma {:induction false} DispatchesAll(t: seq<Event>)
    requires forall j :: 0 <= j < |t| ==> t[j].Dispatched?
    ensures Dispatches(t) == t
    decreases |t|
  {
    if |t| > 0 {
      DispatchesAll(t[1..]);
      assert [t[0]] + t[1..] == t;
    }
  }

  lemma {:induction false} DispatchesLength(t: seq<Event>)
    ensures |Dispatches(t)| <= |t|
    decreases |t|
  {
    if |t| > 0 {
      DispatchesLength(t[1..]);
    }
  }
}
