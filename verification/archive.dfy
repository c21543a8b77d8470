/**
 * createArchive: which paths a preset keeps, the gzip level it uses, and the
 * request handed to the tar codec. The codec itself is not part of this model.
 */
module Archive {
  import opened Types
  import opened Text
  import opened Paths

  /** The substrings whose presence anywhere in a path drops it from the archive. */
  function ExcludeTokens(p: Preset): seq<string> {
    match p
    case Light => ["node_modules", ".pnpm-store", "dist", "*.log"]
    case Medium => [".pnpm-store", "*.log"]
    case Heavy => []
  }

  /** The tar filter: a path survives when it contains none of the tokens. */
  function KeepPath(tokens: seq<string>, path: string): (keep: bool)
    ensures keep <==> forall i :: 0 <= i < |tokens| ==> !Contains(path, tokens[i])
  {
    if |tokens| == 0 then true
    else if Contains(path, tokens[0]) then false
    else KeepPath(tokens[1..], path)
  }

  /** The gzip level: moderate for heavy, maximal otherwise. */
  function GzipLevel(p: Preset): (level: nat)
    ensures p == Heavy ==> level == 6
    ensures p != Heavy ==> level == 9
  {
    if p == Heavy then 6 else 9
  }

  /** The request handed to tar: working directory, output file, entries, level and filter tokens. */
  datatype ArchivePlan = ArchivePlan(
    cwd: string,
    file: string,
    entries: seq<string>,
    level: nat,
    exclude: seq<string>)

  /** The tar request create issues for `repoPaths` under `preset`. */
  function PlanArchive(workDir: string, file: string, repoPaths: seq<string>, preset: Preset): (plan: ArchivePlan)
    ensures plan.cwd == workDir && plan.file == file
    ensures |plan.entries| == |repoPaths|
    ensures forall i :: 0 <= i < |repoPaths| ==> plan.entries[i] == Basename(repoPaths[i])
    ensures plan.level == GzipLevel(preset) && plan.exclude == ExcludeTokens(preset)
  {
    ArchivePlan(
      workDir, file,
      seq(|repoPaths|, i requires 0 <= i < |repoPaths| => Basename(repoPaths[i])),
      GzipLevel(preset), ExcludeTokens(preset))
  }

  /**
   * What the work directory holds when tar runs: itself, the metadata.json
   * create wrote into it, and the archive file tar is writing.
   */
  function WorkDirAtTar(workDir: string, file: string): set<string> {
    {workDir, Join(workDir, "metadata.json"), file}
  }

  /**
   * As written, tar resolves every entry against the work directory, which
   * holds nothing else: an entry names something there only when the
   * repository's basename is "metadata.json" or the archive's own name.
   * The basenames "", "." and ".." are not covered: `path.join` would
   * normalise them to the work directory or its parent, which `Join` does not.
   */
  lemma EntriesMissWorkDir(workDir: string, file: string, repoPaths: seq<string>, preset: Preset, i: nat)
    requires i < |repoPaths|
    requires Basename(repoPaths[i]) !in {"", ".", ".."}
    ensures var plan := PlanArchive(workDir, file, repoPaths, preset);
      Join(plan.cwd, plan.entries[i]) in WorkDirAtTar(workDir, file) <==>
        Basename(repoPaths[i]) == "metadata.json" || Join(workDir, Basename(repoPaths[i])) == file
  {
    var entry := Basename(repoPaths[i]);
    assert |Join(workDir, entry)| > |workDir|;
    if Join(workDir, entry) == Join(workDir, "metadata.json") {
      JoinInjective(workDir, entry, "metadata.json");
    }
  }

  /**
   * The evident intent: run tar from the directory that holds the
   * repositories. Then every entry names its repository.
   */
  lemma EntriesResolveFromParent(parent: string, file: string, repoPaths: seq<string>, preset: Preset)
    requires forall i :: 0 <= i < |repoPaths| ==> DirectlyIn(repoPaths[i], parent)
    ensures var plan := PlanArchive(parent, file, repoPaths, preset);
      forall i :: 0 <= i < |repoPaths| ==> Join(plan.cwd, plan.entries[i]) == repoPaths[i]
  {
    forall i | 0 <= i < |repoPaths|
      ensures Join(parent, Basename(repoPaths[i])) == repoPaths[i]
    {
      JoinBasename(repoPaths[i], parent);
    }
  }

  /** The token sets of the three presets; medium's are among light's. */
  lemma PresetTokens()
    ensures (set t | t in ExcludeTokens(Light)) == {"node_modules", ".pnpm-store", "dist", "*.log"}
    ensures (set t | t in ExcludeTokens(Medium)) == {".pnpm-store", "*.log"}
    ensures ExcludeTokens(Heavy) == []
    ensures forall t :: t in ExcludeTokens(Medium) ==> t in ExcludeTokens(Light)
  {
  }

  /** Heavy keeps every path. */
  lemma HeavyKeepsEverything(path: string)
    ensures KeepPath(ExcludeTokens(Heavy), path)
  {
  }

  /** Whatever light keeps, medium keeps too. */
  lemma LightKeptIsMediumKept(path: string)
    requires KeepPath(ExcludeTokens(Light), path)
    ensures KeepPath(ExcludeTokens(Medium), path)
  {
    var light := ExcludeTokens(Light);
    var medium := ExcludeTokens(Medium);
    assert medium[0] == light[1] && medium[1] == light[3];
  }

  /** The filter drops every path that contains one of the tokens, anywhere. */
  lemma KeepPathDrops(tokens: seq<string>, path: string, i: nat, at: nat)
    requires i < |tokens| && OccursAt(path, tokens[i], at)
    ensures !KeepPath(tokens, path)
  {
    ContainsIff(path, tokens[i]);
  }

  /** A path without '*' never contains the literal token "*.log". */
  lemma StarLogIsLiteral(path: string)
    requires '*' !in path
    ensures !Contains(path, "*.log")
  {
    ContainsIff(path, "*.log");
    if Contains(path, "*.log") {
      var i: nat :| OccursAt(path, "*.log", i);
      SliceAt(path, i, i + 5, i);
      assert false;
    }
  }

  /** So under medium an ordinary log file is kept unless it lies in a pnpm store. */
  lemma MediumKeepsLogFiles(path: string)
    requires '*' !in path && !Contains(path, ".pnpm-store")
    ensures KeepPath(ExcludeTokens(Medium), path)
  {
    StarLogIsLiteral(path);
  }
}
