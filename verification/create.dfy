/**
 * snapshotCreate: form the id, record every repository, build the archive,
 * fill in its checksum and size, upload it (in one piece or in parts), then
 * upload the metadata document. Clock, randomness, git, tar, the digest and
 * the store's replies are inputs.
 */
module Create {
  import opened Wrappers
  import opened Types
  import opened Text
  import opened Paths
  import opened Store
  import opened Catalog
  import opened Inspect
  import opened Archive
  import opened Chunking
  import opened Multipart

  /** `uuid.slice(0, 8)`: the first eight characters, or all of a shorter string. */
  function UuidPrefix(uuid: string): (r: string)
    ensures |uuid| >= 8 ==> r == uuid[..8]
    ensures |uuid| < 8 ==> r == uuid
  {
    if |uuid| >= 8 then uuid[..8] else uuid
  }

  /** The snapshot id: the name, the creation time in milliseconds and a random suffix, dash-separated. */
  function SnapshotId(name: string, now: nat, uuid: string): (id: string)
    ensures StartsWith(id, name + "-")
    ensures EndsWith(id, "-" + UuidPrefix(uuid))
  {
    var id := name + "-" + Decimal(now) + "-" + UuidPrefix(uuid);
    assert id[..|name + "-"|] == name + "-";
    assert id[|id| - |"-" + UuidPrefix(uuid)|..] == "-" + UuidPrefix(uuid);
    id
  }

  /**
   * Ids formed for the same name differ whenever the creation times or the
   * random suffixes differ: the time is read back from the digits before the
   * second dash.
   */
  lemma SnapshotIdInjective(name: string, t1: nat, u1: string, t2: nat, u2: string)
    requires SnapshotId(name, t1, u1) == SnapshotId(name, t2, u2)
    ensures t1 == t2 && UuidPrefix(u1) == UuidPrefix(u2)
  {
    var d1, d2 := Decimal(t1), Decimal(t2);
    IdShape(name, t1, u1);
    IdShape(name, t2, u2);
    DigitsThenDash(d1, UuidPrefix(u1), d2, UuidPrefix(u2));
    DecimalInjective(t1, t2);
  }

  lemma IdShape(name: string, now: nat, uuid: string)
    ensures SnapshotId(name, now, uuid)[|name + "-"|..] == Decimal(now) + ("-" + UuidPrefix(uuid))
  {
    var rest := Decimal(now) + ("-" + UuidPrefix(uuid));
    assert SnapshotId(name, now, uuid) == (name + "-") + rest;
  }

  /** Digits followed by a dash: the dash marks where the digits end. */
  lemma DigitsThenDash(d1: string, r1: string, d2: string, r2: string)
    requires forall k :: 0 <= k < |d1| ==> IsDigit(d1[k])
    requires forall k :: 0 <= k < |d2| ==> IsDigit(d2[k])
    requires d1 + ("-" + r1) == d2 + ("-" + r2)
    ensures d1 == d2 && r1 == r2
  {
    var x := d1 + ("-" + r1);
    if |d1| < |d2| {
      ConcatAt(d1, "-" + r1, |d1|);
      ConcatAt(d2, "-" + r2, |d1|);
      assert false;
    } else if |d2| < |d1| {
      ConcatAt(d1, "-" + r1, |d2|);
      ConcatAt(d2, "-" + r2, |d2|);
      assert false;
    }
    assert d1 == x[..|d1|] && d2 == x[..|d2|];
    assert r1 == x[|d1| + 1..] && r2 == x[|d2| + 1..];
  }

  /** The inputs of one create call that come from outside the procedure. */
  datatype CreateEnv = CreateEnv(
    now: nat,                                      // Date.now() when the id is formed
    uuid: string,                                  // randomUUID()
    createdAt: string,                             // new Date().toISOString()
    tmpdir: string,                                // os.tmpdir()
    defaultPaths: seq<string>,                     // getEcosystemPaths, used when no paths are given
    probe: string -> RepoProbe,                    // the queries of getRepositoryInfo, per path
    environment: EnvironmentInfo,                  // getEnvironmentInfo
    pack: ArchivePlan -> Result<seq<byte>, string>, // tar.create: the archive bytes, or its error
    digest: seq<byte> -> string,                   // the SHA-256 hex digest of the archive
    putArchive: Outcome<string>,                   // reply to the single-put archive upload
    multipart: MultipartStore,                     // replies to the multipart archive upload
    putMetadata: Outcome<string>)                  // reply to the metadata upload

  /** The store calls issued, and the output or the error that left the procedure. */
  datatype CreateRun = CreateRun(calls: seq<StoreCall>, result: Result<CreateOutput, string>)

  /** Archives above 5 MiB go through the multipart upload. */
  predicate UsesMultipart(size: int) {
    size > PartSize
  }

  /** The metadata before the archive exists: empty checksum, size 0. */
  function DraftMetadata(input: CreateInput, id: string, env: CreateEnv, repos: seq<RepositoryInfo>): (m: SnapshotMetadata)
    ensures m.checksum == "" && m.archiveSize == 0
  {
    SnapshotMetadata(
      id, input.name, input.preset, env.createdAt, env.environment, repos, "", 0, input.description)
  }

  /** The draft with the archive's checksum and size filled in; nothing else changes. */
  function Finalize(draft: SnapshotMetadata, checksum: string, size: nat): (m: SnapshotMetadata)
    ensures m.checksum == checksum && m.archiveSize == size
    ensures m.(checksum := draft.checksum, archiveSize := draft.archiveSize) == draft
  {
    draft.(checksum := checksum, archiveSize := size)
  }

  /** Upload of the archive bytes: one put with object metadata, or the multipart upload. */
  function UploadArchive(key: string, bytes: seq<byte>, m: SnapshotMetadata, env: CreateEnv): (r: UploadRun)
    ensures !UsesMultipart(|bytes|) ==>
      r == UploadRun([PutArchive(key, bytes, ArchiveTags(m.id, m.name, m.preset, m.checksum))], env.putArchive)
    ensures UsesMultipart(|bytes|) ==> r == MultipartUpload(key, bytes, env.multipart)
  {
    if UsesMultipart(|bytes|) then MultipartUpload(key, bytes, env.multipart)
    else UploadRun([PutArchive(key, bytes, ArchiveTags(m.id, m.name, m.preset, m.checksum))], env.putArchive)
  }

  /** The paths create records: the given ones, in order, or the default ones. */
  function RepoPaths(input: CreateInput, env: CreateEnv): seq<string> {
    input.paths.GetOr(env.defaultPaths)
  }

  /** The tar request create issues. */
  function CreatePlan(input: CreateInput, env: CreateEnv): ArchivePlan {
    var id := SnapshotId(input.name, env.now, env.uuid);
    var workDir := Join(env.tmpdir, "snapshot-" + id);
    PlanArchive(workDir, Join(workDir, id + ArchiveSuffix), RepoPaths(input, env), input.preset)
  }

  /** tar produced an archive. */
  predicate Packed(input: CreateInput, env: CreateEnv) {
    env.pack(CreatePlan(input, env)).Success?
  }

  /** The metadata document create uploads: the draft with the archive's checksum and size. */
  function FinalMetadata(input: CreateInput, env: CreateEnv): SnapshotMetadata
    requires Packed(input, env)
  {
    var id := SnapshotId(input.name, env.now, env.uuid);
    var bytes := env.pack(CreatePlan(input, env)).value;
    Finalize(DraftMetadata(input, id, env, InspectAll(RepoPaths(input, env), env.probe)), env.digest(bytes), |bytes|)
  }

  /** The archive upload create issues once tar has produced the archive. */
  function ArchiveUpload(input: CreateInput, env: CreateEnv): UploadRun
    requires Packed(input, env)
  {
    var id := SnapshotId(input.name, env.now, env.uuid);
    UploadArchive(ArchiveKey(input.name, id), env.pack(CreatePlan(input, env)).value, FinalMetadata(input, env), env)
  }

  /** The whole create procedure. */
  function SnapshotCreate(input: CreateInput, env: CreateEnv): (run: CreateRun)
    // tar's error ends the procedure before any upload
    ensures env.pack(CreatePlan(input, env)).Failure? ==>
      run == CreateRun([], Failure(env.pack(CreatePlan(input, env)).error))
    // a failed archive upload ends the procedure with its error, before the metadata is put
    ensures Packed(input, env) && ArchiveUpload(input, env).outcome.Fail? ==>
      run == CreateRun(ArchiveUpload(input, env).calls, Failure(ArchiveUpload(input, env).outcome.error))
    // after a successful archive upload the metadata is put, and its failure is the procedure's
    ensures Packed(input, env) && ArchiveUpload(input, env).outcome.Pass? ==>
      && run.calls == ArchiveUpload(input, env).calls +
           [PutMetadata(MetadataKey(input.name, SnapshotId(input.name, env.now, env.uuid)), FinalMetadata(input, env))]
      && (run.result.Success? <==> env.putMetadata.Pass?)
      && (env.putMetadata.Fail? ==> run.result == Failure(env.putMetadata.error))
    // the metadata document goes up only after the archive, and carries the archive's checksum and size
    ensures forall i :: 0 <= i < |run.calls| && run.calls[i].PutMetadata? ==>
      && i == |run.calls| - 1
      && env.pack(CreatePlan(input, env)).Success?
      && run.calls[i].key == MetadataKey(input.name, SnapshotId(input.name, env.now, env.uuid))
      && run.calls[i].document.checksum == env.digest(env.pack(CreatePlan(input, env)).value)
      && run.calls[i].document.archiveSize == |env.pack(CreatePlan(input, env)).value|
    ensures run.result.Success? ==>
      var id := SnapshotId(input.name, env.now, env.uuid);
      var bytes := env.pack(CreatePlan(input, env)).value;
      && env.pack(CreatePlan(input, env)).Success?
      && run.result.value.id == id
      && run.result.value.location == "s3://" + input.bucket + "/" + ArchiveKey(input.name, id)
      && run.result.value.metadata.id == id
      && run.result.value.metadata.name == input.name
      && run.result.value.metadata.preset == input.preset
      && run.result.value.metadata.createdAt == env.createdAt
      && run.result.value.metadata.description == input.description
      && run.result.value.metadata.repositories == InspectAll(RepoPaths(input, env), env.probe)
      && run.result.value.metadata.checksum == env.digest(bytes)
      && run.result.value.metadata.archiveSize == |bytes|
      && |run.calls| >= 2
      && run.calls[|run.calls| - 1] == PutMetadata(MetadataKey(input.name, id), run.result.value.metadata)
  {
    var id := SnapshotId(input.name, env.now, env.uuid);
    var repos := InspectAll(RepoPaths(input, env), env.probe);
    var draft := DraftMetadata(input, id, env, repos);
    match env.pack(CreatePlan(input, env))
    case Failure(e) => CreateRun([], Failure(e))
    case Success(bytes) =>
      var metadata := Finalize(draft, env.digest(bytes), |bytes|);
      var archiveKey := ArchiveKey(input.name, id);
      var upload := UploadArchive(archiveKey, bytes, metadata, env);
      assert forall i :: 0 <= i < |upload.calls| ==> !upload.calls[i].PutMetadata? by {
        if UsesMultipart(|bytes|) {
          UploadCallsAreArchiveCalls(archiveKey, bytes, env.multipart);
        }
      }
      match upload.outcome
      case Fail(e) => CreateRun(upload.calls, Failure(e))
      case Pass =>
        assert |upload.calls| >= 1 by {
          if UsesMultipart(|bytes|) {
            UploadCallsAreArchiveCalls(archiveKey, bytes, env.multipart);
          }
        }
        var calls := upload.calls + [PutMetadata(MetadataKey(input.name, id), metadata)];
        match env.putMetadata
        case Fail(e) => CreateRun(calls, Failure(e))
        case Pass =>
          CreateRun(calls, Success(CreateOutput(id, "s3://" + input.bucket + "/" + archiveKey, metadata)))
  }

  /** A multipart upload issues multipart calls only, starting with init. */
  lemma UploadCallsAreArchiveCalls(key: string, bytes: seq<byte>, store: MultipartStore)
    ensures var run := MultipartUpload(key, bytes, store);
      && |run.calls| >= 1
      && run.calls[0] == MultipartInit(key)
      && forall i :: 0 <= i < |run.calls| ==> !run.calls[i].PutMetadata? && !run.calls[i].PutArchive?
  {
    var run := MultipartUpload(key, bytes, store);
    if store.init.Success? {
      var chunks := Chunks(bytes, PartSize);
      var parts := UploadParts(key, store.init.value, chunks, |chunks|, store.part);
      forall i | 0 <= i < |run.calls|
        ensures !run.calls[i].PutMetadata? && !run.calls[i].PutArchive?
      {
        if 0 < i <= |parts.calls| {
          assert run.calls[i] == parts.calls[i - 1];
        }
      }
    }
  }

  /**
   * The size threshold: an archive of at most 5 MiB, the boundary included, is
   * uploaded with one put; one byte more and the multipart upload starts.
   */
  lemma SinglePutThreshold(input: CreateInput, env: CreateEnv)
    requires env.pack(CreatePlan(input, env)).Success?
    ensures var bytes := env.pack(CreatePlan(input, env)).value;
      var run := SnapshotCreate(input, env);
      && |run.calls| >= 1
      && (run.calls[0].PutArchive? <==> |bytes| <= 5 * 1024 * 1024)
      && (run.calls[0].MultipartInit? <==> |bytes| > 5 * 1024 * 1024)
      && run.calls[0].key == ArchiveKey(input.name, SnapshotId(input.name, env.now, env.uuid))
  {
    var bytes := env.pack(CreatePlan(input, env)).value;
    var id := SnapshotId(input.name, env.now, env.uuid);
    if UsesMultipart(|bytes|) {
      UploadCallsAreArchiveCalls(ArchiveKey(input.name, id), bytes, env.multipart);
    }
  }
}
