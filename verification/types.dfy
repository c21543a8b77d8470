/** The records the snapshot procedures exchange, and the defaults of their input schemas. */
module Types {
  import opened Wrappers

  newtype byte = x: int | 0 <= x < 256

  /** How much of each repository a snapshot captures. */
  datatype Preset = Light | Medium | Heavy

  /** The spelling of a preset in inputs and in metadata documents. */
  function PresetName(p: Preset): string {
    match p
    case Light => "light"
    case Medium => "medium"
    case Heavy => "heavy"
  }

  /** The preset enum schema: exactly the three spellings are accepted. */
  function ParsePreset(s: string): (r: Option<Preset>)
    ensures r.Some? ==> PresetName(r.value) == s
  {
    if s == "light" then Some(Light)
    else if s == "medium" then Some(Medium)
    else if s == "heavy" then Some(Heavy)
    else None
  }

  /** A preset is accepted exactly when it is spelled as one of the three names. */
  lemma ParsePresetExact(s: string, p: Preset)
    ensures ParsePreset(s) == Some(p) <==> s == PresetName(p)
  {
  }

  /** The state of one repository as recorded in a snapshot. */
  datatype RepositoryInfo = RepositoryInfo(
    path: string,
    name: string,
    branch: string,
    commit: string,
    dirty: bool,
    stashCount: int,
    remoteUrl: Option<string>,
    ahead: int,
    behind: int)

  /** The host a snapshot was taken on. */
  datatype EnvironmentInfo = EnvironmentInfo(
    os: string,
    nodeVersion: string,
    pnpmVersion: string,
    username: string,
    hostname: string)

  /** The metadata document stored next to each archive. */
  datatype SnapshotMetadata = SnapshotMetadata(
    id: string,
    name: string,
    preset: Preset,
    createdAt: string,
    environment: EnvironmentInfo,
    repositories: seq<RepositoryInfo>,
    checksum: string,
    archiveSize: int,
    description: Option<string>)

  datatype CreateInput = CreateInput(
    name: string,
    preset: Preset,
    bucket: string,
    paths: Option<seq<string>>,
    description: Option<string>)

  datatype CreateOutput = CreateOutput(id: string, location: string, metadata: SnapshotMetadata)

  datatype RestoreInput = RestoreInput(
    id: string,
    bucket: string,
    targetPath: Option<string>,
    overwrite: bool)

  datatype RestoreOutput = RestoreOutput(
    success: bool,
    metadata: SnapshotMetadata,
    restoredPaths: seq<string>)

  datatype ListInput = ListInput(bucket: string, prefix: Option<string>, maxResults: int)

  /** One line of a listing: a projection of a metadata document. */
  datatype ListEntry = ListEntry(
    id: string,
    name: string,
    preset: Preset,
    createdAt: string,
    size: int,
    os: string)

  datatype ListOutput = ListOutput(snapshots: seq<ListEntry>, count: int)

  datatype DiffInput = DiffInput(id: string, bucket: string, paths: Option<seq<string>>)

  /** A field that differs between the live repository and the snapshot. */
  datatype Change = Change(current: string, snapshot: string)

  /** The difference found for one checked repository path. */
  datatype DiffRepository = DiffRepository(
    path: string,
    branchDiff: Option<Change>,
    commitDiff: Option<Change>,
    filesChanged: int,
    newStashes: int)

  datatype DiffSummary = DiffSummary(reposChanged: int, totalFilesChanged: int, isMatch: bool)

  datatype DiffOutput = DiffOutput(
    snapshotMetadata: SnapshotMetadata,
    repositories: seq<DiffRepository>,
    summary: DiffSummary)

  datatype DeleteInput = DeleteInput(id: string, bucket: string)

  datatype DeleteOutput = DeleteOutput(deleted: bool, id: string)

  /** Message of every "no such snapshot" error. */
  function NotFound(id: string): string {
    "Snapshot not found: " + id
  }

  // ---------------------------------------------------------------------------
  // input schema defaults
  // ---------------------------------------------------------------------------

  /** The create input schema: the preset defaults to medium and must be one of the three names. */
  function CreateInputOf(
    name: string, preset: Option<string>, bucket: string,
    paths: Option<seq<string>>, description: Option<string>): (r: Result<CreateInput, string>)
    ensures preset.None? ==> r == Success(CreateInput(name, Medium, bucket, paths, description))
    ensures preset.Some? ==>
      (r.Success? <==> ParsePreset(preset.value).Some?)
    ensures r.Success? ==>
      r.value.name == name && r.value.bucket == bucket &&
      r.value.paths == paths && r.value.description == description &&
      (preset.Some? ==> PresetName(r.value.preset) == preset.value)
  {
    match preset
    case None => Success(CreateInput(name, Medium, bucket, paths, description))
    case Some(s) =>
      match ParsePreset(s)
      case Some(p) => Success(CreateInput(name, p, bucket, paths, description))
      case None => Failure("Invalid preset: " + s)
  }

  /** The restore input schema: overwrite defaults to false, the target stays optional. */
  function RestoreInputOf(
    id: string, bucket: string, targetPath: Option<string>, overwrite: Option<bool>): (r: RestoreInput)
    ensures r.id == id && r.bucket == bucket && r.targetPath == targetPath
    ensures r.overwrite <==> overwrite == Some(true)
  {
    RestoreInput(id, bucket, targetPath, overwrite.GetOr(false))
  }

  /** The list input schema: at most 100 results unless the caller says otherwise. */
  function ListInputOf(bucket: string, prefix: Option<string>, maxResults: Option<int>): (r: ListInput)
    ensures r.bucket == bucket && r.prefix == prefix
    ensures maxResults.None? ==> r.maxResults == 100
    ensures maxResults.Some? ==> r.maxResults == maxResults.value
  {
    ListInput(bucket, prefix, maxResults.GetOr(100))
  }
}
