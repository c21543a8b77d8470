/**
 * snapshotRestore: find the metadata, download it and the archive, refuse to
 * extract over existing repositories unless asked to, extract, report what
 * now exists, and remove the work directory on the way out. The store's
 * replies, the file system and tar's extraction are inputs.
 */
module Restore {
  import opened Wrappers
  import opened Types
  import opened Paths
  import opened Store
  import opened Catalog
  import opened Seqs

  /** The inputs of one restore call that come from outside the procedure. */
  datatype RestoreEnv = RestoreEnv(
    tmpdir: string,                                     // os.tmpdir()
    listError: Option<string>,                          // the error the list call throws, if it throws
    listing: seq<string>,                               // otherwise, the keys listed under "snapshots/"
    fetchMetadata: string -> Result<SnapshotMetadata, string>, // download and JSON.parse of a metadata key
    fetchArchive: string -> Result<seq<byte>, string>,  // download of an archive key
    fs: set<string>,                                    // the paths that exist when restore starts
    extract: (seq<byte>, string, set<string>) -> Result<set<string>, string>)
      // tar.extract of the archive into a directory: the paths that exist afterwards, or its error

  /**
   * The store calls, the result, whether extraction was started, the file
   * system when the cleanup ran, and the file system afterwards.
   */
  datatype RestoreRun = RestoreRun(
    calls: seq<StoreCall>,
    result: Result<RestoreOutput, string>,
    extracted: bool,
    exitFs: set<string>,
    fs: set<string>)

  /** The per-invocation work directory. */
  function WorkDir(tmpdir: string, id: string): string {
    Join(tmpdir, "restore-" + id)
  }

  /** `input.targetPath || workDir`: an absent or empty target means the work directory. */
  function TargetPath(targetPath: Option<string>, workDir: string): (t: string)
    ensures targetPath.None? || targetPath.value == "" ==> t == workDir
    ensures targetPath.Some? && targetPath.value != "" ==> t == targetPath.value
  {
    match targetPath
    case Some(p) => if p != "" then p else workDir
    case None => workDir
  }

  /** Where each recorded repository lands under the target, in metadata order. */
  function RepoTargets(repos: seq<RepositoryInfo>, target: string): (r: seq<string>)
    ensures |r| == |repos| && forall i :: 0 <= i < |repos| ==> r[i] == Join(target, repos[i].name)
  {
    seq(|repos|, i requires 0 <= i < |repos| => Join(target, repos[i].name))
  }

  /** The first repository destination, in metadata order, that already exists. */
  function FirstConflict(targets: seq<string>, fs: set<string>): (r: Option<string>)
    ensures r.None? <==> forall i :: 0 <= i < |targets| ==> targets[i] !in fs
    ensures r.Some? ==> exists i :: 0 <= i < |targets| && targets[i] == r.value && r.value in fs &&
                                    (forall j :: 0 <= j < i ==> targets[j] !in fs)
  {
    if |targets| == 0 then None
    else if targets[0] in fs then Some(targets[0])
    else
      var rest := targets[1..];
      var r := FirstConflict(rest, fs);
      assert forall i :: 0 <= i < |rest| ==> rest[i] == targets[i + 1];
      r
  }

  function ConflictMessage(path: string): string {
    "Target path already exists: " + path + ". Use overwrite: true to replace."
  }

  /** The repository destinations that exist after extraction, in metadata order. */
  function RestoredPaths(repos: seq<RepositoryInfo>, target: string, fs: set<string>): (r: seq<string>)
    ensures IsSubsequence(r, RepoTargets(repos, target))
    ensures forall p :: p in r <==> p in fs && exists i :: 0 <= i < |repos| && p == Join(target, repos[i].name)
    // a destination shared by several repositories is reported once for each of them
    ensures forall p :: multiset(r)[p] == if p in fs then multiset(RepoTargets(repos, target))[p] else 0
  {
    FilterCounts(RepoTargets(repos, target), p => p in fs);
    Filter(RepoTargets(repos, target), p => p in fs)
  }

  /** The cleanup test: the work directory exists and is not literally the requested target. */
  predicate RemovesWorkDir(fs: set<string>, workDir: string, targetPath: Option<string>) {
    workDir in fs && targetPath != Some(workDir)
  }

  /** The finally block: remove the work directory tree when the cleanup test passes. */
  function Cleanup(fs: set<string>, workDir: string, targetPath: Option<string>): (r: set<string>)
    ensures RemovesWorkDir(fs, workDir, targetPath) ==> r == RemoveTree(fs, workDir)
    ensures !RemovesWorkDir(fs, workDir, targetPath) ==> r == fs
  {
    if RemovesWorkDir(fs, workDir, targetPath) then RemoveTree(fs, workDir) else fs
  }

  function Exit(
    input: RestoreInput, env: RestoreEnv, calls: seq<StoreCall>,
    result: Result<RestoreOutput, string>, extracted: bool, fs: set<string>): RestoreRun
  {
    RestoreRun(calls, result, extracted, fs, Cleanup(fs, WorkDir(env.tmpdir, input.id), input.targetPath))
  }

  /** The paths that exist once the work directory and the target have been created. */
  function Prepared(input: RestoreInput, env: RestoreEnv): set<string> {
    env.fs + {WorkDir(env.tmpdir, input.id), Target(input, env)}
  }

  /** The first repository destination of the metadata that already exists. */
  function Conflict(input: RestoreInput, env: RestoreEnv): Option<string>
    requires MetadataFetched(input, env)
  {
    FirstConflict(RepoTargets(Metadata(input, env).repositories, Target(input, env)), Prepared(input, env))
  }

  /** Everything after both downloads: the existence check, extraction and the report. */
  function Extraction(
    input: RestoreInput, env: RestoreEnv, calls: seq<StoreCall>, m: SnapshotMetadata, bytes: seq<byte>): (run: RestoreRun)
    ensures run.calls == calls
    ensures run.fs == Cleanup(run.exitFs, WorkDir(env.tmpdir, input.id), input.targetPath)
    ensures var conflict := FirstConflict(RepoTargets(m.repositories, Target(input, env)), Prepared(input, env));
      && (run.extracted <==> input.overwrite || conflict.None?)
      && (!run.extracted ==> run.result == Failure(ConflictMessage(conflict.value)))
    ensures !run.extracted ==> run.exitFs == Prepared(input, env)
    // once started, extraction decides the file system at exit and the result
    ensures var out := env.extract(bytes, Target(input, env), Prepared(input, env));
      run.extracted && out.Success? ==> run.exitFs == out.value && run.result.Success?
    ensures var out := env.extract(bytes, Target(input, env), Prepared(input, env));
      run.extracted && out.Failure? ==> run.exitFs == Prepared(input, env) && run.result == Failure(out.error)
    ensures run.result.Success? ==>
      && run.extracted
      && run.result.value.success
      && run.result.value.metadata == m
      && run.result.value.restoredPaths == RestoredPaths(m.repositories, Target(input, env), run.exitFs)
  {
    var target := Target(input, env);
    var fs1 := Prepared(input, env);
    var conflict := FirstConflict(RepoTargets(m.repositories, target), fs1);
    if !input.overwrite && conflict.Some? then
      Exit(input, env, calls, Failure(ConflictMessage(conflict.value)), false, fs1)
    else
      match env.extract(bytes, target, fs1)
      case Failure(e) => Exit(input, env, calls, Failure(e), true, fs1)
      case Success(fs2) =>
        Exit(input, env, calls, Success(RestoreOutput(true, m, RestoredPaths(m.repositories, target, fs2))), true, fs2)
  }

  /** The whole restore procedure. */
  function SnapshotRestore(input: RestoreInput, env: RestoreEnv): (run: RestoreRun)
    // every exit goes through the cleanup, and the work directory exists until extraction
    ensures run.fs == Cleanup(run.exitFs, WorkDir(env.tmpdir, input.id), input.targetPath)
    ensures !run.extracted ==> WorkDir(env.tmpdir, input.id) in run.exitFs
    ensures |run.calls| >= 1 && run.calls[0] == List(SnapshotsPrefix, None)
    // a failed listing ends the procedure with its error
    ensures env.listError.Some? ==>
      run.calls == [List(SnapshotsPrefix, None)] && run.result == Failure(env.listError.value) && !run.extracted
    // an unknown id fails before anything is downloaded
    ensures env.listError.None? && FindMetadataKey(env.listing, input.id).None? ==>
      run.calls == [List(SnapshotsPrefix, None)] && run.result == Failure(NotFound(input.id)) && !run.extracted
    // the downloads: the metadata key found, then the archive key derived from it
    ensures |run.calls| >= 2 ==>
      && env.listError.None?
      && FindMetadataKey(env.listing, input.id).Some?
      && run.calls[1] == Download(FindMetadataKey(env.listing, input.id).value)
    ensures |run.calls| >= 3 ==>
      run.calls[2] == Download(ArchiveKeyFor(FindMetadataKey(env.listing, input.id).value))
    ensures |run.calls| <= 3
    // a failed download ends the procedure with its error, and nothing follows it
    ensures env.listError.None? && FindMetadataKey(env.listing, input.id).Some? && !MetadataFetched(input, env) ==>
      && run.calls == [List(SnapshotsPrefix, None), Download(FindMetadataKey(env.listing, input.id).value)]
      && run.result == Failure(env.fetchMetadata(FindMetadataKey(env.listing, input.id).value).error)
      && !run.extracted
    ensures MetadataFetched(input, env) && !Downloaded(input, env) ==>
      && |run.calls| == 3
      && run.result == Failure(env.fetchArchive(ArchiveKeyFor(FindMetadataKey(env.listing, input.id).value)).error)
      && !run.extracted
    // after both downloads the rest is Extraction, on the metadata and the archive downloaded
    ensures Downloaded(input, env) ==>
      run == Extraction(input, env, run.calls, Metadata(input, env), ArchiveBytes(input, env))
    // the existence check runs, and decides, only after both downloads succeed
    ensures run.extracted || run.result.Success? ==> Downloaded(input, env)
    ensures Downloaded(input, env) ==>
      && |run.calls| == 3
      && (run.extracted <==> input.overwrite || Conflict(input, env).None?)
      && (!run.extracted ==> run.result == Failure(ConflictMessage(Conflict(input, env).value)))
    // a returned result: success, the metadata downloaded, and what exists of the repositories
    ensures run.result.Success? ==>
      && run.extracted
      && run.result.value.success
      && run.result.value.metadata == Metadata(input, env)
      && run.result.value.restoredPaths ==
           RestoredPaths(Metadata(input, env).repositories, Target(input, env), run.exitFs)
  {
    var workDir := WorkDir(env.tmpdir, input.id);
    var fs0 := env.fs + {workDir};
    var list := List(SnapshotsPrefix, None);
    if env.listError.Some? then Exit(input, env, [list], Failure(env.listError.value), false, fs0)
    else match FindMetadataKey(env.listing, input.id)
    case None => Exit(input, env, [list], Failure(NotFound(input.id)), false, fs0)
    case Some(key) =>
      match env.fetchMetadata(key)
      case Failure(e) => Exit(input, env, [list, Download(key)], Failure(e), false, fs0)
      case Success(m) =>
        var calls := [list, Download(key), Download(ArchiveKeyFor(key))];
        match env.fetchArchive(ArchiveKeyFor(key))
        case Failure(e) => Exit(input, env, calls, Failure(e), false, fs0)
        case Success(bytes) => Extraction(input, env, calls, m, bytes)
  }

  /** Both downloads succeed. */
  predicate Downloaded(input: RestoreInput, env: RestoreEnv) {
    MetadataFetched(input, env) &&
    env.fetchArchive(ArchiveKeyFor(FindMetadataKey(env.listing, input.id).value)).Success?
  }

  /** The metadata key was found and its document downloaded and parsed. */
  predicate MetadataFetched(input: RestoreInput, env: RestoreEnv) {
    env.listError.None? &&
    FindMetadataKey(env.listing, input.id).Some? &&
    env.fetchMetadata(FindMetadataKey(env.listing, input.id).value).Success?
  }

  /** The archive restore extracts, once it has been downloaded. */
  function ArchiveBytes(input: RestoreInput, env: RestoreEnv): seq<byte>
    requires Downloaded(input, env)
  {
    env.fetchArchive(ArchiveKeyFor(FindMetadataKey(env.listing, input.id).value)).value
  }

  /** The metadata restore works from, once it has been downloaded. */
  function Metadata(input: RestoreInput, env: RestoreEnv): SnapshotMetadata
    requires MetadataFetched(input, env)
  {
    env.fetchMetadata(FindMetadataKey(env.listing, input.id).value).value
  }

  function Target(input: RestoreInput, env: RestoreEnv): string {
    TargetPath(input.targetPath, WorkDir(env.tmpdir, input.id))
  }

  /**
   * Because the cleanup compares the work directory with the raw targetPath,
   * a restore with no (or an empty) target extracts into the work directory
   * and then deletes it: none of the reported restored paths is left.
   */
  lemma DefaultTargetIsRemoved(input: RestoreInput, env: RestoreEnv)
    requires input.targetPath.None? || input.targetPath == Some("")
    requires SnapshotRestore(input, env).result.Success?
    requires WorkDir(env.tmpdir, input.id) in SnapshotRestore(input, env).exitFs
    ensures var run := SnapshotRestore(input, env);
      forall p :: p in run.result.value.restoredPaths ==> p !in run.fs
  {
    var run := SnapshotRestore(input, env);
    var workDir := WorkDir(env.tmpdir, input.id);
    assert Target(input, env) == workDir;
    forall p | p in run.result.value.restoredPaths
      ensures p !in run.fs
    {
      var i :| 0 <= i < |Metadata(input, env).repositories| && p == Join(workDir, Metadata(input, env).repositories[i].name);
      JoinInTree(workDir, Metadata(input, env).repositories[i].name);
    }
  }
}
