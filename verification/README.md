# Environment snapshots: a Dafny model

This project models the five snapshot procedures of the client-snapshot
package: `snapshot.create` captures the state of a set of git repositories
into a tar.gz archive and uploads the archive and a JSON metadata document to
an S3 bucket under `snapshots/<name>/<id>`; `snapshot.restore` finds a snapshot
by id, downloads both objects and extracts the archive; `snapshot.diff`
compares the repositories on disk with the recorded state; `snapshot.list`
lists the metadata documents newest first; `snapshot.delete` removes every
object whose key mentions the id.

Everything outside the procedures is an input. The S3 listing is a sequence
of keys, together with the error the list call throws, if it throws. Each S3 call of create, restore, diff, list and delete is recorded in a trace of `StoreCall`s, and its reply is
an input: an `Outcome`, a `Result` or a function from key or part number to a
reply. Each git query and each file-system test is a `Result` or an `Option`.
The tar codec, SHA-256 and `Date` parsing are functions passed in. The file
system restore sees is a set of paths. Each procedure is a pure function (diff
and the multipart upload also as loop-based methods proved equal to it), and
the lemmas state what the procedures promise about those inputs.

Modules follow the source:

- `Types`: the records and the input-schema defaults (src/types.ts).
- `Inspect`, `Archive`, `Chunking`, `Multipart`, `Create`: the create procedure
  (dist/procedures/snapshot/create.js). These cover repository inspection, the
  tar filter, part slicing, the multipart upload and the procedure itself.
- `Diff`: dist/procedures/snapshot/diff.js. The comparison uses the intended record lookup; the lookup as written is kept beside it (see "## Findings").
- `Restore`: dist/procedures/snapshot/restore.js.
- `Listing`: src/procedures/snapshot/list.ts.
- `Deletion`: src/procedures/snapshot/delete.ts.
- `Lifecycle`: how the keys and records written by create are found by
  restore, diff and delete.
- Shared helpers: `Wrappers` (`Option`, `Result`, `Outcome`), `Text` (the string
  built-ins), `Paths` (`path.basename`, `path.join`, subtree removal), `Seqs`
  (`filter`, `slice`), `Store` (the call trace) and `Catalog` (the key layout
  and the lookup by id).

## Model

| member | source | states |
|---|---|---|
| Types.ParsePreset | src/types.ts:14-16 | a preset string is accepted only when it is that preset's own spelling |
| Types.ParsePresetExact | src/types.ts:14-16 | a string parses to a preset exactly when it is that preset's name, so only "light", "medium" and "heavy" are accepted |
| Types.CreateInputOf | src/types.ts:96-107 | an absent preset becomes medium; a given preset is accepted iff it is one of the three names, and is then kept; name, bucket, paths and description pass through |
| Types.RestoreInputOf | src/types.ts:131-140 | overwrite holds exactly when the caller passed true; the target stays optional |
| Types.ListInputOf | src/types.ts:165-172 | an absent maxResults becomes 100; a given one is kept |
| Text.IndexFrom | dist/procedures/snapshot/restore.js:37 | the search finds the least index at or after the start where the pattern occurs, and None exactly when it occurs nowhere from there |
| Text.ContainsIff | dist/procedures/snapshot/restore.js:25 | `includes` holds exactly when the pattern occurs at some index |
| Text.ReplaceFirst | dist/procedures/snapshot/restore.js:37 | a string without the pattern is returned unchanged; otherwise the first occurrence of the pattern, and only that one, is swapped for the replacement |
| Text.Split | dist/procedures/snapshot/diff.js:75 | splitting never yields an empty list of lines |
| Text.SplitJoin | dist/procedures/snapshot/diff.js:75 | joining the split lines with the separator gives back the text, and no line contains the separator |
| Text.JoinSplit | dist/procedures/snapshot/diff.js:75 | splitting the join of separator-free lines gives back the lines |
| Text.DecimalRoundTrip | dist/procedures/snapshot/create.js:18 | the printed digits of the timestamp denote the timestamp |
| Text.DecimalInjective | dist/procedures/snapshot/create.js:18 | different timestamps print differently |
| Paths.Basename | dist/procedures/snapshot/create.js:233 | once trailing '/'s are dropped, the basename is the longest ending of the path without a '/': the path ends with it, and it is either the whole path or preceded by '/' |
| Paths.BasenameOfJoin | dist/procedures/snapshot/restore.js:55 | the basename of a joined plain name is that name |
| Paths.RemoveTree | dist/procedures/snapshot/restore.js:86 | a path survives the recursive removal iff it is neither the root nor below it |
| Paths.JoinInTree | dist/procedures/snapshot/restore.js:70 | a name joined under a directory lies in that directory's tree |
| Paths.JoinBasename | dist/procedures/snapshot/create.js:222-233 | an entry directly inside a directory is that directory joined with its basename |
| Catalog.FindMetadataKey | dist/procedures/snapshot/restore.js:25-28 | the result is the first listed key that contains the id and ends in ".metadata.json"; there is none exactly when no key qualifies |
| Catalog.CreatedKeysLayout | dist/procedures/snapshot/create.js:55-80 | both keys create writes lie under "snapshots/"; the metadata key passes the lookup for its id; the archive key mentions the id but does not end in ".metadata.json" |
| Catalog.ArchiveKeyRoundTrip | dist/procedures/snapshot/restore.js:37 | when neither name nor id contains ".metadata.json", the archive key derived from create's metadata key is create's archive key |
| Inspect.DisplayName | dist/procedures/snapshot/create.js:139-149 | the package name when it is non-empty, the directory's basename otherwise |
| Inspect.RepositoryInfoOf | dist/procedures/snapshot/create.js:110-175 | when git status or rev-parse fails, the record is the degraded one: basename, empty branch and commit, clean, zero counts, no remote; otherwise each field comes from its query, with a failed stash count as 0 and a failed remote query as no remote |
| Inspect.InspectAll | dist/procedures/snapshot/create.js:25 | one record per path, in path order, each describing its own path |
| Archive.KeepPath | dist/procedures/snapshot/create.js:226-232 | a path is kept iff it contains none of the exclusion tokens as a substring |
| Archive.GzipLevel | dist/procedures/snapshot/create.js:210 | level 6 for heavy, 9 for light and medium |
| Archive.PlanArchive | dist/procedures/snapshot/create.js:222-233 | tar runs in the work directory, writes the archive file, and gets the basenames of the paths in order, with the preset's level and tokens |
| Archive.EntriesMissWorkDir | dist/procedures/snapshot/create.js:222-233 | tar resolves each entry against the work directory, which at that point holds only the metadata.json written at line 42 and the archive tar is writing; an entry names something there only when the repository's basename is "metadata.json" or the archive's own name. Basenames "", "." and ".." are excluded by the precondition, since `path.join` would resolve them to the work directory or its parent |
| Archive.EntriesResolveFromParent | dist/procedures/snapshot/create.js:222-233 | run from the directory holding the repositories, every entry names its repository |
| Archive.PresetTokens | dist/procedures/snapshot/create.js:212-220 | light excludes node_modules, .pnpm-store, dist and *.log; medium excludes .pnpm-store and *.log; heavy excludes nothing; medium's tokens are among light's |
| Archive.HeavyKeepsEverything | dist/procedures/snapshot/create.js:221-232 | heavy keeps every path |
| Archive.LightKeptIsMediumKept | dist/procedures/snapshot/create.js:213-220 | every path light keeps, medium keeps too |
| Archive.KeepPathDrops | dist/procedures/snapshot/create.js:227-229 | a path with any token at any position is dropped |
| Archive.StarLogIsLiteral | dist/procedures/snapshot/create.js:228 | "*.log" is matched literally: a path without '*' never contains it |
| Archive.MediumKeepsLogFiles | dist/procedures/snapshot/create.js:217-219 | so medium keeps every ordinary path outside a pnpm store, log files included |
| Chunking.ChunksPartition | dist/procedures/snapshot/create.js:258-259 | the parts reassemble to the content; there are ceil(size / part size) of them; every part but the last is full; the last holds 1 to part-size bytes |
| Chunking.ChunkAtOffset | dist/procedures/snapshot/create.js:259 | part i is the slice from i times the part size up to the next offset or the end |
| Chunking.OffsetInRange | dist/procedures/snapshot/create.js:258 | the loop offset i times the part size is below the length exactly when part i exists |
| Multipart.UploadParts | dist/procedures/snapshot/create.js:257-272 | parts go up in order, numbered from 1, each with its chunk; the run stops at the first part whose upload throws, with that error; on success the acknowledgements are the part replies in upload order |
| Multipart.Rethrown | dist/procedures/snapshot/create.js:281-288 | after an abort the original error leaves the procedure, unless the abort itself throws |
| Multipart.InitFailure | dist/procedures/snapshot/create.js:248-253 | when init throws, it is the only call and its error leaves the procedure |
| Multipart.MultipartSucceeds | dist/procedures/snapshot/create.js:257-279 | the upload succeeds iff every part and the completion succeed; the trace is then init, parts 1..k with their chunks, and a completion listing the part replies; nothing is aborted |
| Multipart.MultipartFailureAborts | dist/procedures/snapshot/create.js:281-289 | after init, every failure ends with exactly one abort, as the last call; a throwing abort's error leaves the procedure; otherwise the error is that of the first of the k parts whose upload throws, or, when all k parts go up, that of the completion |
| Multipart.NoCompleteAfterFailedPart | dist/procedures/snapshot/create.js:258-289 | when part p throws, the upload fails, no completion is requested and no part after p is sent |
| Multipart.UploadPartsStops | dist/procedures/snapshot/create.js:258-272 | once a part has failed, further chunks change nothing |
| Multipart.PartAtIsChunk | dist/procedures/snapshot/create.js:258-259 | the subarray taken at an offset inside the content is the corresponding chunk |
| Multipart.SendParts | dist/procedures/snapshot/create.js:257-272 | the offset loop sends exactly the parts of the chunked content, as the reference definition does |
| Multipart.MultipartUploadLoop | dist/procedures/snapshot/create.js:245-290 | the loop-based upload produces the same trace and outcome as the reference definition |
| Create.UuidPrefix | dist/procedures/snapshot/create.js:18 | the first eight characters of the UUID, or all of a shorter one |
| Create.SnapshotId | dist/procedures/snapshot/create.js:18 | the id starts with the name and a dash and ends with a dash and the UUID prefix |
| Create.SnapshotIdInjective | dist/procedures/snapshot/create.js:18 | two ids for the same name are equal only if their timestamps and UUID prefixes are |
| Create.DraftMetadata | dist/procedures/snapshot/create.js:29-39 | before the archive exists the checksum is empty and the size is 0 |
| Create.Finalize | dist/procedures/snapshot/create.js:47-52 | the checksum and size are set and no other field changes |
| Create.UploadArchive | dist/procedures/snapshot/create.js:59-76 | up to 5 MiB: one put carrying the snapshot id, name, preset and checksum as object tags; above: the multipart upload |
| Create.SnapshotCreate | dist/procedures/snapshot/create.js:17-98 | a tar failure uploads nothing; a failed archive upload ends create with its error and no metadata put; otherwise the metadata document is put last, under the metadata key, with the archive's digest and size, and create succeeds iff that put succeeds, failing with its error otherwise; success returns the id, the s3:// location of the archive key and metadata recording the inputs and the inspected repositories |
| Create.UploadCallsAreArchiveCalls | dist/procedures/snapshot/create.js:245-290 | a multipart upload starts with init and issues no plain put |
| Create.SinglePutThreshold | dist/procedures/snapshot/create.js:59 | the first upload call is a plain put iff the archive has at most 5 MiB, and a multipart init iff it has more; both use the archive key |
| Diff.FindRecordAsWritten | dist/procedures/snapshot/diff.js:34 | the first record whose path equals the checked path or whose name is its basename; none exactly when no record matches |
| Diff.FindRecordChoice | dist/procedures/snapshot/diff.js:34 | the lookup the diff model uses: none exactly when no record matches by path or name; a record of the checked path itself is chosen when there is one, the first such; otherwise the first record named after the basename |
| Diff.CountWithBar | dist/procedures/snapshot/diff.js:75 | the number of stat lines containing '|': at most the number of lines, and 0 exactly when none has one |
| Diff.FilesInStatBounds | dist/procedures/snapshot/diff.js:75 | the file count of a stat is 0 iff the stat has no '|', and never exceeds its line count |
| Diff.CompareRepo | dist/procedures/snapshot/diff.js:37-98 | a missing path gives filesChanged -1 and counts as changed; a branch or commit difference is reported iff the live value differs from the record; filesChanged is -1 when git cannot be read or the stat fails, 0 for equal commits, else the stat's count; newStashes is the stash difference; changed iff unreadable or any difference or a positive count |
| Diff.Outcomes | dist/procedures/snapshot/diff.js:33-99 | at most one comparison per checked path; which comparison each path gets is stated by Diff.OutcomesFollowPaths |
| Diff.CountChangedBounds | dist/procedures/snapshot/diff.js:86-91 | at most one changed repository per entry; none exactly when no entry changed |
| Diff.OutcomesFollowPaths | dist/procedures/snapshot/diff.js:33-36 | paths without a record are skipped; every other path gets its comparison against the record the corrected lookup Diff.FindRecord picks for it (own path first; see "## Findings"), in path order |
| Diff.Visit | dist/procedures/snapshot/diff.js:34-98 | one pass of the loop adds exactly the path's comparison to the entries, the changed count and the file total when the path has a record, and nothing otherwise |
| Diff.CompareAll | dist/procedures/snapshot/diff.js:29-99 | the loop's entries, changed count and file total equal the reference fold over the outcomes |
| Diff.PathsToCheck | dist/procedures/snapshot/diff.js:32 | the given paths, or else the recorded repositories' paths in order |
| Diff.SnapshotDiff | dist/procedures/snapshot/diff.js:12-109 | with the corrected lookup of the diff.js:34 finding in place of the `find`: the list call comes first, and the metadata key found is the only download, so nothing is downloaded after a failed listing or an unknown id; a failed listing fails with its error; an unknown id fails with "Snapshot not found"; a failed download fails with its error; otherwise the metadata, the entries and the totals are returned, with isMatch iff no repository changed |
| Diff.UnchangedRepositoriesMatch | dist/procedures/snapshot/diff.js:49-91 | when every checked repository reports its recorded branch, commit and stash count, nothing changed, no file is counted and no entry shows a difference |
| Restore.TargetPath | dist/procedures/snapshot/restore.js:48 | an absent or empty target means the work directory; any other is used as given |
| Restore.RepoTargets | dist/procedures/snapshot/restore.js:54-55 | each recorded repository lands at the target joined with its name, in metadata order |
| Restore.FirstConflict | dist/procedures/snapshot/restore.js:53-60 | the first destination, in metadata order, that already exists; none exactly when no destination exists |
| Restore.RestoredPaths | dist/procedures/snapshot/restore.js:68-74 | the destinations that exist after extraction, in metadata order, and only those; a destination shared by several repositories is reported once for each of them |
| Restore.Cleanup | dist/procedures/snapshot/restore.js:83-88 | the work directory tree is removed iff it exists and is not literally the requested target; otherwise nothing changes |
| Restore.Extraction | dist/procedures/snapshot/restore.js:48-81 | extraction starts iff overwrite is set or no destination exists; otherwise restore fails naming the first existing destination. Once started, tar's extraction decides the outcome: its error fails restore with the file system as prepared, and its file system is the one the cleanup sees and the one the restored paths are read from; success reports the downloaded metadata and the destinations that exist |
| Restore.SnapshotRestore | dist/procedures/snapshot/restore.js:13-89 | a failed listing or an unknown id fails after the list call alone; the metadata key and then its derived archive key are downloaded; a failed metadata download fails with its error after two calls, and a failed archive download with its error after three; after both downloads the run is Restore.Extraction on the downloaded metadata and archive; the existence check decides only after both downloads; every exit runs the cleanup |
| Restore.DefaultTargetIsRemoved | dist/procedures/snapshot/restore.js:85-86 | with no target given, the cleanup deletes the work directory restore extracted into, so no reported restored path survives |
| Seqs.Filter | src/procedures/snapshot/list.ts:37-38 | the kept elements are exactly those of the input that pass, in their order |
| Seqs.FilterCounts | src/procedures/snapshot/list.ts:37-38 | every passing element is kept as often as it occurs in the input, and no other element is kept |
| Listing.ListPrefix | src/procedures/snapshot/list.ts:22-24 | "snapshots/" followed by the name prefix when one is given, "snapshots/" alone otherwise |
| Listing.MetadataListed | src/procedures/snapshot/list.ts:37-38 | exactly the listed keys ending in ".metadata.json", in listing order, each as often as listed |
| Listing.MetadataKeys | src/procedures/snapshot/list.ts:37-39 | a prefix of the metadata keys: min(maxResults, their number) of them, or, for a negative maxResults, all but that many from the end |
| Listing.Fetched | src/procedures/snapshot/list.ts:44-68 | an entry for each key whose download and parse succeed and for no other; no more entries than keys; one per key when all succeed |
| Listing.FetchedFollowsKeys | src/procedures/snapshot/list.ts:41-67 | the entries correspond one to one, in order, with the keys whose download and parse succeed: the i-th entry is projected from the i-th such key's metadata |
| Listing.InsertKeepsNewestFirst | src/procedures/snapshot/list.ts:71-73 | insertion adds exactly the new entry to the multiset and keeps a newest-first sequence newest first |
| Listing.SortedPermutation | src/procedures/snapshot/list.ts:70-73 | the result is newest first and a permutation of the input |
| Listing.InsertStable | src/procedures/snapshot/list.ts:71-73 | the inserted entry goes before every entry with the same timestamp |
| Listing.SameTimeMembers | src/procedures/snapshot/list.ts:71-73 | the entries selected for a timestamp are exactly those created at that time |
| Listing.SortStable | src/procedures/snapshot/list.ts:71-73 | entries with equal timestamps keep their input order |
| Listing.SnapshotList | src/procedures/snapshot/list.ts:18-79 | one list call with maxKeys 2·maxResults; a failed listing is the only error and ends the procedure; otherwise one download per selected key in order, and the output is newest first, a permutation of the fetched entries, and count is its length, at most maxResults |
| Listing.ListKeepsListingOrder | src/procedures/snapshot/list.ts:44-73 | when the listing returns, entries created at the same time appear in the order their keys were listed |
| Deletion.Selected | src/procedures/snapshot/delete.ts:27-29 | exactly the listed keys that contain the id, in listing order |
| Deletion.SelectedCounts | src/procedures/snapshot/delete.ts:27-29 | each selected key occurs as often as it is listed, and no key without the id occurs |
| Deletion.DeleteEach | src/procedures/snapshot/delete.ts:36-41 | deletes go out in order, one per key, up to and including the first one that throws; success iff every delete succeeds |
| Deletion.DeleteListed | src/procedures/snapshot/delete.ts:26-47 | no matching key fails with "Snapshot not found" after the listing alone; only keys containing the id are deleted, in listing order; success iff every selected delete succeeds, returning deleted = true and the id |
| Deletion.DeleteListedRefusal | src/procedures/snapshot/delete.ts:35-40 | when some key is selected, the calls after the listing are exactly the deletes of Deletion.DeleteEach, in order up to the first refusal, and a refusal's error is the procedure's |
| Deletion.SnapshotDelete | src/procedures/snapshot/delete.ts:13-47 | a failed listing fails with its error after the list call alone and deletes nothing; otherwise the procedure continues as Deletion.DeleteListed with the listed keys |
| Lifecycle.LookupFindsCreatedMetadata | dist/procedures/snapshot/restore.js:25 | when only create's two keys mention the id, the lookup finds create's metadata key |
| Lifecycle.RestoreDownloadsCreatedKeys | dist/procedures/snapshot/restore.js:20-42 | when the listing returns, restore downloads create's metadata key and create's archive key |
| Lifecycle.DeleteRemovesCreatedKeys | src/procedures/snapshot/delete.ts:27-41 | delete selects both keys create wrote, and a successful delete deletes both |
| Lifecycle.DiffAfterCreateMatches | dist/procedures/snapshot/diff.js:32-91 | with the intended lookup, a diff over create's paths against create's records reports no change and no changed files. Preconditions: create's `git status` and `rev-parse HEAD` succeeded for every path (QueriesSucceed), and every repository is still present with the branch, commit and stash count create saw (Unmoved). There is no condition on names or basenames, since each path finds its own record |
| Lifecycle.SharedBasenameAsWritten | dist/procedures/snapshot/diff.js:34 | with the lookup as written, two repositories "/a/app" and "/b/app" named "app" and left unmoved: "/b/app" is compared with the record of "/a/app" and counts as changed; the intended lookup compares it with its own record and finds no change |

## Left out

- S3, git, tar, gzip, SHA-256, base64 and JSON are not modelled. Their replies are inputs.
- `Date.now()`, `new Date().toISOString()`, `randomUUID()` and `os.tmpdir()` are inputs.
- `getEcosystemPaths` is the input `defaultPaths`. `getEnvironmentInfo` is the input `environment`.
- The bucket is not part of `StoreCall`, because every call of a procedure uses the input bucket.
- Durations (`uploadDuration`, `downloadDuration`, `extractDuration`) are not modelled: they are clock differences.
- `Promise.all` over the repositories is modelled as an in-order map. The queries do not interact, so concurrency is left out.
- Create's work directory is not tracked as a file system. Its contents matter only to tar, which is the input `pack` given the plan (cwd included). Archive.EntriesMissWorkDir states what that directory holds when tar runs.
- The file-system calls of create cannot fail in the model: `mkdirSync`, both `writeFileSync` calls, `statSync` and `readFileSync`. In the source, a throw from any of them ends create with that error, after the cleanup.
- The file-system calls of restore cannot fail in the model: `mkdirSync` of the work directory and of the target, the archive `writeFileSync` and the cleanup's `rmSync`. In the source, a throw from any of them ends restore with that error.
- The `files` list built in `createArchive` is never used, so it is not modelled.
- Restore's write of the downloaded archive into the work directory is not modelled. The file system tracks only the work directory, the target and the paths `extract` reports.
- Diff.SnapshotDiff: records are looked up with the corrected Diff.FindRecord (own path first, basename as a fallback), not with the `find` of diff.js:34. When an earlier record of another repository has the checked path's basename as its name, the source compares against that record and the model against the path's own; Lifecycle.SharedBasenameAsWritten gives such an input.
- Diff.OutcomesFollowPaths and Diff.Outcomes: the record each path is compared with is the one Diff.FindRecord picks, for the same reason. The as-written choice is Diff.FindRecordAsWritten.
- Archive.EntriesMissWorkDir: the basenames "", "." and ".." are not covered. With `paths: ["."]`, `path.basename` gives "." and tar run in the work directory archives that directory itself; the model's Join is not normalised, so the lemma would otherwise say the entry names nothing there.
- Paths.Join: `path.join` normalisation (`..`, `.`, repeated or trailing separators) is not modelled. A join is `dir + "/" + name`.
- Paths.Basename: only POSIX separators are modelled.
- Text.ReplaceFirst: `$`-patterns in the replacement are not interpreted. The one replacement used, ".tar.gz", has none.
- Listing.SnapshotList: `new Date(createdAt).getTime()` is the input `time` with integer values. Unparseable dates (NaN, which makes the comparator inconsistent) are not modelled.
- Listing.SnapshotList: maxResults is an integer. Fractional numbers, which the schema allows, are not modelled.
- Listing.SnapshotList: S3 paging and the effect of `maxKeys` on the listing are the store's business. The listing is whatever keys the store returned.
- Listing.Fetched: a download failure and a parse failure are both an absent reply. The source skips both alike.
- Inspect.RepositoryInfoOf: the `git status` reply is trusted to have the recorded fields. A malformed reply is not modelled.
- The listing is the first page the store returns. A list reply without `contents`, which would throw a TypeError, is not modelled; a thrown list call is the input `listError`.
- Diff.CompareRepo: a thrown stash query after a successful `git diff --stat` keeps that stat's count in the total while the entry reports -1. This is modelled as written.
- Multipart.UploadParts: part bodies are base64 strings in the source. The model sends the bytes.
- Create.CreatePlan keeps the tar working directory as written, the work directory. The archive bytes are the input `pack`, so no result in the model depends on how tar resolves its entries.
- The procedure registration (src/register.ts) and the package entry point are not part of this model.

## Findings

| source | as written | input that shows it | evidently intended | confidence | as-written member | corrected member |
|---|---|---|---|---|---|---|
| dist/procedures/snapshot/diff.js:34 | the record for a checked path is the first one whose path equals it or whose name equals its basename, so an earlier record of another repository with the same directory name wins | create over "/a/app" (at c1) and "/b/app" (at c2), neither with a package name, then diff with nothing moved: "/b/app" is compared with the record of "/a/app" and reportedly changed | the path's own record first, the basename only as a fallback | medium; not executed | Diff.FindRecordAsWritten, Lifecycle.SharedBasenameAsWritten | Diff.FindRecord, Diff.FindRecordChoice, Lifecycle.DiffAfterCreateMatches |
| dist/procedures/snapshot/create.js:222-233 | tar runs with the work directory as cwd on the basenames of the repository paths, while that directory holds only metadata.json (line 42) and the archive being written | a repository "/eco/app": tar looks for "<workDir>/app", which does not exist, so the archive cannot contain the repository | tar run from the directory that holds the repositories, so each basename names its repository | low; not executed | Archive.EntriesMissWorkDir | Archive.EntriesResolveFromParent |
