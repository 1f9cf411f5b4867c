/** The configuration the executor runs: Go's `preset` struct and the table
    of named workflows (main.go:168-176). */
module Presets {
  import opened Results
  import opened Adapters

  /** One element of a workflow. `options` and `esbuildOptions` are the
      pointer fields of the source: None where the JSON left them out. */
  datatype Step = Step(
    reuseWorkflow: string,
    util: string,
    options: Option<seq<string>>,
    esbuildOptions: Option<BuildOptions>)

  /** Workflow name to its steps, in order. */
  type Registry = map<string, seq<Step>>
}
