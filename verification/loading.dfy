/** Building the workflow table (loadWorkflows, main.go:178-199, and the load
    sequence of main.go:290-297) and the name lookup of the `workflow`
    command (main.go:302). Reading files and decoding JSON are not modelled:
    `fs` says, for each file name, whether the file could be read and decoded
    and which table it holds. */
module Loading {
  import opened Seqs
  import opened Presets

  /** What reading and decoding one workflow file gives. */
  datatype FileState = Unreadable | Malformed | Decoded(workflows: Registry)

  /** The file names to load `name` from: non-empty, readable and decoded. */
  predicate Defines(fs: string -> FileState, file: string, name: string)
  {
    file != "" && fs(file).Decoded? && name in fs(file).workflows
  }

  /** loadWorkflows: an empty file name, an unreadable file and a malformed
      file leave the table alone (the last two are only logged); otherwise
      every workflow of the file replaces the entry of the same name. */
  function LoadWorkflows(reg: Registry, file: string, fs: string -> FileState): (r: Registry)
    ensures file == "" || !fs(file).Decoded? ==> r == reg
    ensures forall name :: name in r <==> name in reg || Defines(fs, file, name)
    ensures forall name | name in r ::
      r[name] == if Defines(fs, file, name) then fs(file).workflows[name] else reg[name]
  {
    if file == "" then reg
    else match fs(file)
      case Unreadable => reg
      case Malformed => reg
      case Decoded(f) => reg + f
  }

  /** Loading several files, in order. */
  function LoadAll(reg: Registry, files: seq<string>, fs: string -> FileState): Registry
    decreases |files|
  {
    if |files| == 0 then reg
    else LoadAll(LoadWorkflows(reg, files[0], fs), files[1..], fs)
  }

  /** A name no file defines keeps its entry of the starting table (or stays
      absent). */
  lemma {:induction false} LoadAllUntouched(reg: Registry, files: seq<string>, fs: string -> FileState, name: string)
    requires forall j :: 0 <= j < |files| ==> !Defines(fs, files[j], name)
    ensures var r := LoadAll(reg, files, fs);
      (name in r <==> name in reg) && (name in r ==> r[name] == reg[name])
    decreases |files|
  {
    if |files| > 0 {
      LoadAllUntouched(LoadWorkflows(reg, files[0], fs), files[1..], fs, name);
    }
  }

  /** Last source wins: a workflow defined by several files is the one of the
      last of them. */
  lemma {:induction false} LastWins(reg: Registry, files: seq<string>, fs: string -> FileState, j: nat, name: string)
    requires j < |files| && Defines(fs, files[j], name)
    requires forall k :: j < k < |files| ==> !Defines(fs, files[k], name)
    ensures var r := LoadAll(reg, files, fs);
      name in r && r[name] == fs(files[j]).workflows[name]
    decreases |files|
  {
    var next := LoadWorkflows(reg, files[0], fs);
    if j == 0 {
      LoadAllUntouched(next, files[1..], fs, name);
    } else {
      LastWins(next, files[1..], fs, j - 1, name);
    }
  }

  /** The files main loads, in order: the one next to the executable, the
      one in the current directory, then the comma-separated list given with
      -workflows (when it is not empty). */
  function LoadOrder(exeDir: string, flows: string): (files: seq<string>)
    ensures |files| >= 2
    ensures files[0] == exeDir + "/workflows.json" && files[1] == "workflows.json"
    ensures flows == "" ==> |files| == 2
    ensures flows != "" ==> |files| >= 3 && Join(files[2..], ',') == flows
    ensures forall j :: 2 <= j < |files| ==> ',' !in files[j]
  {
    var listed := if flows != "" then Split(flows, ',') else [];
    var files := [exeDir + "/workflows.json", "workflows.json"] + listed;
    assert files[2..] == listed;
    files
  }

  /** The table the command runs against. */
  function LoadedRegistry(exeDir: string, flows: string, fs: string -> FileState): Registry
  {
    LoadAll(map[], LoadOrder(exeDir, flows), fs)
  }

  /** The exact case of the source's last-wins promise: two files both
      defining `name`, loaded one after the other. */
  lemma LaterFileWins(fs: string -> FileState, a: string, b: string, name: string)
    requires Defines(fs, a, name) && Defines(fs, b, name)
    ensures var r := LoadAll(map[], [a, b], fs);
      name in r && r[name] == fs(b).workflows[name]
  {
    LastWins(map[], [a, b], fs, 1, name);
  }

  // ---------------------------------------------------------------------
  // The name given on the command line

  predicate IsUpper(c: char)
  {
    'A' <= c <= 'Z'
  }

  /** strings.Trim(s, " "): drops every leading and trailing space. */
  function TrimLeft(s: string): (r: string)
    ensures |r| <= |s| && r == s[|s| - |r|..]
    ensures forall i :: 0 <= i < |s| - |r| ==> s[i] == ' '
    ensures r == [] || r[0] != ' '
  {
    if |s| > 0 && s[0] == ' ' then TrimLeft(s[1..]) else s
  }

  function TrimRight(s: string): (r: string)
    ensures |r| <= |s| && r == s[..|r|]
    ensures forall i :: |r| <= i < |s| ==> s[i] == ' '
    ensures r == [] || r[|r| - 1] != ' '
  {
    if |s| > 0 && s[|s| - 1] == ' ' then TrimRight(s[..|s| - 1]) else s
  }

  function Trim(s: string): (r: string)
  {
    TrimRight(TrimLeft(s))
  }

  function LowerChar(c: char): (d: char)
    ensures !IsUpper(d)
    ensures IsUpper(c) ==> d as int == c as int + 32
    ensures !IsUpper(c) ==> d == c
  {
    if IsUpper(c) then (c as int + 32) as char else c
  }

  /** strings.ToLower restricted to ASCII letters. */
  function ToLower(s: string): (r: string)
    ensures |r| == |s|
    ensures forall i :: 0 <= i < |s| ==> r[i] == LowerChar(s[i])
  {
    seq(|s|, i requires 0 <= i < |s| => LowerChar(s[i]))
  }

  /** The workflow name the command looks up (main.go:302). */
  function Normalize(arg: string): string
  {
    ToLower(Trim(arg))
  }

  /** A name in the form every looked-up name has. */
  predicate Normal(name: string)
  {
    && (forall i :: 0 <= i < |name| ==> !IsUpper(name[i]))
    && (name == [] || (name[0] != ' ' && name[|name| - 1] != ' '))
  }

  lemma {:induction false} TrimLeftNoSpace(s: string)
    requires s == [] || s[0] != ' '
    ensures TrimLeft(s) == s
  {
  }

  lemma {:induction false} TrimRightNoSpace(s: string)
    requires s == [] || s[|s| - 1] != ' '
    ensures TrimRight(s) == s
  {
  }

  /** Every looked-up name is normal, and a normal name is looked up by
      itself: a table entry whose name has an upper-case letter or a
      leading or trailing space cannot be named on the command line. It is
      reachable only through a ReuseWorkflow reference, which is looked up
      exactly as written. */
  lemma NormalizeNormal(arg: string, name: string)
    ensures Normal(Normalize(arg))
    ensures Normal(name) <==> Normalize(name) == name
  {
    NormalizedIsNormal(arg);
    if Normal(name) {
      NormalIsFixed(name);
    }
    if Normalize(name) == name {
      NormalizedIsNormal(name);
    }
  }

  lemma NormalIsFixed(name: string)
    requires Normal(name)
    ensures Normalize(name) == name
  {
    TrimLeftNoSpace(name);
    TrimRightNoSpace(name);
    assert Trim(name) == name;
  }

  lemma NormalizedIsNormal(arg: string)
    ensures Normal(Normalize(arg))
  {
    var t := Trim(arg);
    var l := TrimLeft(arg);
    assert t == [] || (t[0] == l[0] && t[0] != ' ');
  }

  /** Normalizing twice is normalizing once. */
  lemma NormalizeIdempotent(arg: string)
    ensures Normalize(Normalize(arg)) == Normalize(arg)
  {
    NormalizeNormal(arg, Normalize(arg));
  }
}
