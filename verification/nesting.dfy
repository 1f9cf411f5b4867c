/** How deep runWorkflow recurses. The source has no bound: a registry whose
    ReuseWorkflow references form a cycle recurses until the Go runtime
    stops it. The model runs with a nesting bound instead; these lemmas show
    that the bound matters only for such cycles: on a registry ranked so that
    every reference points to a lower rank it is never reached, and a
    workflow whose first step reuses itself reaches it whatever the bound. */
module Nesting {
  import opened Results
  import opened Bytes
  import opened Presets
  import opened Executor

  /** Every ReuseWorkflow reference to a known workflow points to a workflow
      of strictly lower rank: the reference graph has no cycle. */
  predicate Ranked(reg: Registry, rank: map<string, nat>)
  {
    forall name | name in reg ::
      && name in rank
      && forall i | 0 <= i < |reg[name]| ::
           var target := reg[name][i].reuseWorkflow;
           target != "" && target in reg ==> target in rank && rank[target] < rank[name]
  }

  predicate TooDeep(r: Exec)
  {
    r.outcome.Fatal? && r.outcome.failure.NestingTooDeep?
  }

  /** With a bound above the rank of the workflow, the run never stops for
      lack of nesting depth: every outcome is one the source itself has. */
  lemma {:induction false} RankedRun(env: Env, reg: Registry, rank: map<string, nat>, name: string, wdir: string,
                                     nested: Option<bool>, script: Option<seq<byte>>, fuel: nat)
    requires Ranked(reg, rank)
    requires name in reg ==> name in rank && fuel > rank[name]
    ensures !TooDeep(Run(env, reg, name, wdir, nested, script, fuel))
    decreases fuel, 2, 0
  {
    if name in reg && |reg[name]| > 0 {
      var dir := if wdir != "" then wdir else env.tempDir.GetOr("");
      if wdir != "" || env.tempDir.Some? {
        RankedSteps(env, reg, rank, name, 0, dir, nested, script, fuel - 1);
      }
    }
  }

  lemma {:induction false} RankedSteps(env: Env, reg: Registry, rank: map<string, nat>, name: string, i: nat,
                                       wdir: string, pending: Option<bool>, script: Option<seq<byte>>, fuel: nat)
    requires Ranked(reg, rank)
    requires name in reg && i <= |reg[name]| && name in rank && fuel >= rank[name]
    ensures !TooDeep(RunSteps(env, reg, name, i, wdir, pending, script, fuel))
    decreases fuel + 1, 1, |reg[name]| - i
  {
    if i < |reg[name]| {
      var first := StepFirst(pending, i);
      var head := StepExec(env, reg, name, i, reg[name][i], wdir, first, script, fuel);
      RankedStep(env, reg, rank, name, i, wdir, first, script, fuel);
      if head.outcome.Done? {
        RankedSteps(env, reg, rank, name, i + 1, wdir, None, head.outcome.script, fuel);
      }
    }
  }

  lemma {:induction false} RankedStep(env: Env, reg: Registry, rank: map<string, nat>, name: string, i: nat,
                                      wdir: string, first: bool, script: Option<seq<byte>>, fuel: nat)
    requires Ranked(reg, rank)
    requires name in reg && i < |reg[name]| && name in rank && fuel >= rank[name]
    ensures !TooDeep(StepExec(env, reg, name, i, reg[name][i], wdir, first, script, fuel))
    decreases fuel + 1, 0, 0
  {
    var target := reg[name][i].reuseWorkflow;
    if target != "" {
      RankedRun(env, reg, rank, target, wdir, Some(first), script, fuel);
    }
  }

  /** A workflow whose first step reuses the workflow itself never dispatches
      a tool: in the source it recurses without end, and in the model it
      exhausts any bound. */
  lemma {:induction false} SelfReuse(env: Env, reg: Registry, name: string, wdir: string,
                                     nested: Option<bool>, script: Option<seq<byte>>, fuel: nat)
    requires name != "" && name in reg && |reg[name]| > 0 && reg[name][0].reuseWorkflow == name
    requires wdir != "" || env.tempDir.Some?
    ensures var r := Run(env, reg, name, wdir, nested, script, fuel);
      r.outcome == Fatal(NestingTooDeep(name)) && Dispatches(r.trace) == []
    decreases fuel
  {
    if fuel > 0 {
      var dir := if wdir != "" then wdir else env.tempDir.value;
      var first := StepFirst(nested, 0);
      SelfReuse(env, reg, name, dir, Some(first), script, fuel - 1);
      var inner := Run(env, reg, name, dir, Some(first), script, fuel - 1);
      assert StepExec(env, reg, name, 0, reg[name][0], dir, first, script, fuel - 1) == inner;
      assert RunSteps(env, reg, name, 0, dir, nested, script, fuel - 1) == inner;
      if wdir == "" {
        DispatchesAppend([TempDirCreated(dir)], inner.trace);
        assert Dispatches([TempDirCreated(dir)]) == [];
      }
    }
  }
}
