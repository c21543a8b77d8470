/**
 * snapshotDiff: find the snapshot's metadata, compare every checked path with
 * its recorded repository, and sum the comparisons up. The listing, the
 * download and every git or file-system query are inputs.
 */
module Diff {
  import opened Wrappers
  import opened Types
  import opened Text
  import opened Paths
  import opened Catalog
  import opened Store

  /** What the queries diff makes report for one path at the time of the diff. */
  datatype LiveRepo = LiveRepo(
    present: bool,                     // existsSync(path)
    branch: Result<string, string>,    // `git rev-parse --abbrev-ref HEAD`, trimmed
    commit: Result<string, string>,    // `git rev-parse HEAD`, trimmed
    diffStat: Result<string, string>,  // `git diff --stat <snapshot commit>..HEAD`
    stashes: Result<int, string>)      // the count from git.stash.list

  /** A record stands for a checked path when the paths agree or its name is the path's basename. */
  predicate Matches(rec: RepositoryInfo, path: string) {
    rec.path == path || rec.name == Basename(path)
  }

  /** The first record, in metadata order, that `pick` selects (`Array.prototype.find`). */
  function FirstRecord(repos: seq<RepositoryInfo>, pick: RepositoryInfo -> bool): (r: Option<RepositoryInfo>)
    ensures r.None? <==> forall i :: 0 <= i < |repos| ==> !pick(repos[i])
    ensures r.Some? ==> exists i :: 0 <= i < |repos| && repos[i] == r.value && pick(repos[i]) &&
                                    (forall j :: 0 <= j < i ==> !pick(repos[j]))
  {
    if |repos| == 0 then None
    else if pick(repos[0]) then Some(repos[0])
    else
      var rest := repos[1..];
      var r := FirstRecord(rest, pick);
      assert forall i :: 0 <= i < |rest| ==> rest[i] == repos[i + 1];
      r
  }

  /**
   * The lookup as diff.js writes it: the first record, in metadata order,
   * whose path is the checked path or whose name is its basename. A record
   * of another repository with the same name wins over the path's own
   * record when it comes first.
   */
  function FindRecordAsWritten(repos: seq<RepositoryInfo>, path: string): (r: Option<RepositoryInfo>)
    ensures r.None? <==> forall i :: 0 <= i < |repos| ==> !Matches(repos[i], path)
    ensures r.Some? ==> exists i :: 0 <= i < |repos| && repos[i] == r.value && Matches(repos[i], path) &&
                                    (forall j :: 0 <= j < i ==> !Matches(repos[j], path))
  {
    FirstRecord(repos, rec => Matches(rec, path))
  }

  /**
   * The record diff compares a checked path with: the path's own record when
   * there is one, and otherwise the first record named after its basename.
   * This is the lookup diff.js evidently intends; the model of the diff uses
   * it. What it selects is stated in FindRecordChoice.
   */
  function FindRecord(repos: seq<RepositoryInfo>, path: string): Option<RepositoryInfo> {
    match FirstRecord(repos, (rec: RepositoryInfo) => rec.path == path)
    case Some(rec) => Some(rec)
    case None => FirstRecord(repos, (rec: RepositoryInfo) => rec.name == Basename(path))
  }

  /**
   * The lookup finds a record exactly when some record matches the path by
   * path or by name; the path's own record comes first, and otherwise the
   * first record named after the basename.
   */
  lemma FindRecordChoice(repos: seq<RepositoryInfo>, path: string)
    ensures var r := FindRecord(repos, path);
      && (r.None? <==> forall i :: 0 <= i < |repos| ==> !Matches(repos[i], path))
      && ((exists i :: 0 <= i < |repos| && repos[i].path == path) ==>
            r.Some? && exists i :: 0 <= i < |repos| && repos[i] == r.value && repos[i].path == path &&
                                   (forall j :: 0 <= j < i ==> repos[j].path != path))
      && ((forall i :: 0 <= i < |repos| ==> repos[i].path != path) && r.Some? ==>
            exists i :: 0 <= i < |repos| && repos[i] == r.value && repos[i].name == Basename(path) &&
                        (forall j :: 0 <= j < i ==> repos[j].name != Basename(path)))
  {
  }

  // ---------------------------------------------------------------------------
  // counting the files of a diff --stat
  // ---------------------------------------------------------------------------

  /** How many of the lines contain '|'. */
  function CountWithBar(lines: seq<string>): (n: nat)
    ensures n <= |lines|
    ensures n == 0 <==> forall k :: 0 <= k < |lines| ==> '|' !in lines[k]
  {
    if |lines| == 0 then 0
    else
      var rest := CountWithBar(lines[1..]);
      assert forall k :: 1 <= k < |lines| ==> lines[k] == lines[1..][k - 1];
      (if '|' in lines[0] then 1 else 0) + rest
  }

  /** The files a diff --stat lists: its lines that contain '|'. */
  function FilesInStat(stat: string): nat {
    CountWithBar(Split(stat, '\n'))
  }

  /** A character other than the separator is in the joined text exactly when it is in a piece. */
  lemma {:induction false} CharInJoin(parts: seq<string>, sep: char, c: char)
    requires |parts| >= 1 && c != sep
    ensures c in JoinWith(parts, sep) <==> exists k :: 0 <= k < |parts| && c in parts[k]
    decreases |parts|
  {
    if |parts| > 1 {
      CharInJoin(parts[1..], sep, c);
      assert forall k :: 1 <= k < |parts| ==> parts[k] == parts[1..][k - 1];
      assert JoinWith(parts, sep) == parts[0] + ([sep] + JoinWith(parts[1..], sep));
    }
  }

  /** A diff --stat lists no file exactly when no '|' appears in it; never more files than lines. */
  lemma FilesInStatBounds(stat: string)
    ensures FilesInStat(stat) == 0 <==> '|' !in stat
    ensures FilesInStat(stat) <= |Split(stat, '\n')|
  {
    SplitJoin(stat, '\n');
    CharInJoin(Split(stat, '\n'), '\n', '|');
  }

  // ---------------------------------------------------------------------------
  // one checked path
  // ---------------------------------------------------------------------------

  /** The comparison of one path: its entry, the files it adds to the total, whether it counts as changed. */
  datatype PathOutcome = PathOutcome(entry: DiffRepository, files: nat, changed: bool)

  /** Some query threw, or the path is gone: the entry then reports -1 files. */
  predicate Unreadable(live: LiveRepo) {
    !live.present || live.branch.Failure? || live.commit.Failure? || live.stashes.Failure?
  }

  /** Both the branch and the commit could be read. */
  predicate HeadRead(live: LiveRepo) {
    live.present && live.branch.Success? && live.commit.Success?
  }

  /** Compare the live state of `path` with its record `rec`. */
  function CompareRepo(path: string, rec: RepositoryInfo, live: LiveRepo): (o: PathOutcome)
    ensures o.entry.path == path
    // a missing repository: -1 files, nothing else, counted as changed, adds nothing
    ensures !live.present ==> o == PathOutcome(DiffRepository(path, None, None, -1, 0), 0, true)
    // the branch difference, present exactly when the branches differ
    ensures o.entry.branchDiff.Some? <==>
      live.present && live.branch.Success? && live.branch.value != rec.branch
    ensures o.entry.branchDiff.Some? ==> o.entry.branchDiff.value == Change(live.branch.value, rec.branch)
    // the commit difference, present exactly when the commits differ
    ensures o.entry.commitDiff.Some? <==> HeadRead(live) && live.commit.value != rec.commit
    ensures o.entry.commitDiff.Some? ==> o.entry.commitDiff.value == Change(live.commit.value, rec.commit)
    // the files counted into the total: the diff --stat's, when the commits differ and it could be read
    ensures o.files == (if HeadRead(live) && live.commit.value != rec.commit && live.diffStat.Success?
                        then FilesInStat(live.diffStat.value) else 0)
    // the files reported in the entry
    ensures Unreadable(live) ==> o.entry.filesChanged == -1
    ensures !Unreadable(live) && live.commit.value == rec.commit ==> o.entry.filesChanged == 0
    ensures !Unreadable(live) && live.commit.value != rec.commit ==>
      o.entry.filesChanged == (if live.diffStat.Success? then FilesInStat(live.diffStat.value) else -1)
    // new stashes: the difference of the counts, which may be negative
    ensures o.entry.newStashes == (if Unreadable(live) then 0 else live.stashes.value - rec.stashCount)
    // what counts as a change
    ensures o.changed <==> Unreadable(live) || o.entry.branchDiff.Some? || o.entry.commitDiff.Some? ||
                           o.entry.filesChanged > 0 || o.entry.newStashes > 0
  {
    if !live.present then PathOutcome(DiffRepository(path, None, None, -1, 0), 0, true)
    else
      match live.branch
      case Failure(_) => PathOutcome(DiffRepository(path, None, None, -1, 0), 0, true)
      case Success(branch) =>
        var branchDiff := if branch != rec.branch then Some(Change(branch, rec.branch)) else None;
        match live.commit
        case Failure(_) => PathOutcome(DiffRepository(path, branchDiff, None, -1, 0), 0, true)
        case Success(commit) =>
          var commitDiff := if commit != rec.commit then Some(Change(commit, rec.commit)) else None;
          var filesChanged: int :=
            if commit == rec.commit then 0
            else if live.diffStat.Success? then FilesInStat(live.diffStat.value) else -1;
          var files: nat := if commit != rec.commit && live.diffStat.Success? then FilesInStat(live.diffStat.value) else 0;
          match live.stashes
          case Failure(_) => PathOutcome(DiffRepository(path, branchDiff, commitDiff, -1, 0), files, true)
          case Success(count) =>
            var newStashes := count - rec.stashCount;
            PathOutcome(
              DiffRepository(path, branchDiff, commitDiff, filesChanged, newStashes), files,
              branchDiff.Some? || commitDiff.Some? || filesChanged > 0 || newStashes > 0)
  }

  // ---------------------------------------------------------------------------
  // the loop over the checked paths
  // ---------------------------------------------------------------------------

  /** The comparisons of the paths that have a record, in the order of the paths. */
  function Outcomes(paths: seq<string>, repos: seq<RepositoryInfo>, live: string -> LiveRepo): (os: seq<PathOutcome>)
    ensures |os| <= |paths|
  {
    if |paths| == 0 then []
    else
      var p := paths[|paths| - 1];
      var before := Outcomes(paths[..|paths| - 1], repos, live);
      match FindRecord(repos, p)
      case None => before
      case Some(rec) => before + [CompareRepo(p, rec, live(p))]
  }

  /** The checked paths that have a record, in order. */
  function Compared(paths: seq<string>, repos: seq<RepositoryInfo>): seq<string> {
    if |paths| == 0 then []
    else
      var p := paths[|paths| - 1];
      Compared(paths[..|paths| - 1], repos) + (if FindRecord(repos, p).Some? then [p] else [])
  }

  function Entries(os: seq<PathOutcome>): (es: seq<DiffRepository>)
    ensures |es| == |os| && forall i :: 0 <= i < |os| ==> es[i] == os[i].entry
  {
    seq(|os|, i requires 0 <= i < |os| => os[i].entry)
  }

  /** The number of comparisons that count as a change. */
  function CountChanged(os: seq<PathOutcome>): nat {
    if |os| == 0 then 0 else CountChanged(os[..|os| - 1]) + (if os[|os| - 1].changed then 1 else 0)
  }

  /** The files all comparisons add to the total. */
  function TotalFiles(os: seq<PathOutcome>): nat {
    if |os| == 0 then 0 else TotalFiles(os[..|os| - 1]) + os[|os| - 1].files
  }

  /** Each comparison counts at most once; none counts exactly when none changed. */
  lemma {:induction false} CountChangedBounds(os: seq<PathOutcome>)
    ensures CountChanged(os) <= |os|
    ensures CountChanged(os) == 0 <==> forall i :: 0 <= i < |os| ==> !os[i].changed
  {
    if |os| > 0 {
      var init := os[..|os| - 1];
      CountChangedBounds(init);
      assert forall i :: 0 <= i < |init| ==> init[i] == os[i];
    }
  }

  /** The compared paths are the checked paths that have a record, in order. */
  lemma {:induction false} ComparedPaths(paths: seq<string>, repos: seq<RepositoryInfo>)
    ensures forall i :: 0 <= i < |Compared(paths, repos)| ==>
      Compared(paths, repos)[i] in paths && FindRecord(repos, Compared(paths, repos)[i]).Some?
    ensures forall p :: p in paths && FindRecord(repos, p).Some? ==> p in Compared(paths, repos)
  {
    if |paths| > 0 {
      var init := paths[..|paths| - 1];
      var last := paths[|paths| - 1];
      ComparedPaths(init, repos);
      assert paths == init + [last];
      assert forall p :: p in paths <==> p in init || p == last;
    }
  }

  /** Comparison `i` is that of compared path `i` against its record. */
  lemma {:induction false} OutcomesAt(paths: seq<string>, repos: seq<RepositoryInfo>, live: string -> LiveRepo)
    ensures |Outcomes(paths, repos, live)| == |Compared(paths, repos)|
    ensures forall i :: 0 <= i < |Compared(paths, repos)| && FindRecord(repos, Compared(paths, repos)[i]).Some? ==>
      Outcomes(paths, repos, live)[i] ==
        CompareRepo(Compared(paths, repos)[i], FindRecord(repos, Compared(paths, repos)[i]).value,
                    live(Compared(paths, repos)[i]))
  {
    if |paths| > 0 {
      var init := paths[..|paths| - 1];
      var last := paths[|paths| - 1];
      OutcomesAt(init, repos, live);
      var os, before := Outcomes(paths, repos, live), Outcomes(init, repos, live);
      var cs, earlier := Compared(paths, repos), Compared(init, repos);
      if FindRecord(repos, last).Some? {
        assert cs == earlier + [last];
        assert os == before + [CompareRepo(last, FindRecord(repos, last).value, live(last))];
      } else {
        assert os == before && cs == earlier;
      }
    }
  }

  /**
   * There is one comparison per checked path that has a record, in the order
   * of the checked paths, made against the record the lookup picks for it.
   */
  lemma OutcomesFollowPaths(paths: seq<string>, repos: seq<RepositoryInfo>, live: string -> LiveRepo)
    ensures |Outcomes(paths, repos, live)| == |Compared(paths, repos)|
    ensures forall i :: 0 <= i < |Compared(paths, repos)| ==>
      var p := Compared(paths, repos)[i];
      && p in paths
      && FindRecord(repos, p).Some?
      && Outcomes(paths, repos, live)[i] == CompareRepo(p, FindRecord(repos, p).value, live(p))
    ensures forall p :: p in paths && FindRecord(repos, p).Some? ==> p in Compared(paths, repos)
  {
    ComparedPaths(paths, repos);
    OutcomesAt(paths, repos, live);
  }

  /** The comparison one checked path contributes: none without a record. */
  function PathStep(path: string, repos: seq<RepositoryInfo>, live: string -> LiveRepo): seq<PathOutcome> {
    match FindRecord(repos, path)
    case None => []
    case Some(rec) => [CompareRepo(path, rec, live(path))]
  }

  /** Checking one more path appends that path's contribution. */
  lemma OutcomesStep(paths: seq<string>, repos: seq<RepositoryInfo>, live: string -> LiveRepo, i: nat)
    requires i < |paths|
    ensures Outcomes(paths[..i + 1], repos, live) == Outcomes(paths[..i], repos, live) + PathStep(paths[i], repos, live)
  {
    assert paths[..i + 1][..i] == paths[..i];
  }

  /** The counters and the entries after a contribution of at most one comparison. */
  lemma FoldStep(os: seq<PathOutcome>, step: seq<PathOutcome>)
    requires |step| <= 1
    ensures Entries(os + step) == Entries(os) + Entries(step)
    ensures CountChanged(os + step) == CountChanged(os) + CountChanged(step)
    ensures TotalFiles(os + step) == TotalFiles(os) + TotalFiles(step)
  {
    if |step| == 1 {
      assert (os + step)[..|os|] == os;
      assert step[..0] == [];
    } else {
      assert os + step == os;
    }
  }

  /**
   * One pass of the loop: compare `path` when it has a record, push its
   * entry and update the two counters; skip it otherwise.
   */
  method Visit(
    path: string, repos: seq<RepositoryInfo>, live: string -> LiveRepo,
    entries: seq<DiffRepository>, reposChanged: nat, totalFilesChanged: nat)
    returns (entries': seq<DiffRepository>, reposChanged': nat, totalFilesChanged': nat)
    ensures entries' == entries + Entries(PathStep(path, repos, live))
    ensures reposChanged' == reposChanged + CountChanged(PathStep(path, repos, live))
    ensures totalFilesChanged' == totalFilesChanged + TotalFiles(PathStep(path, repos, live))
  {
    entries', reposChanged', totalFilesChanged' := entries, reposChanged, totalFilesChanged;
    var rec := FindRecord(repos, path);
    if rec.Some? {
      var o := CompareRepo(path, rec.value, live(path));
      FoldStep([], [o]);
      assert [] + [o] == [o];
      entries' := entries + [o.entry];
      if o.changed {
        reposChanged' := reposChanged + 1;
      }
      totalFilesChanged' := totalFilesChanged + o.files;
    }
  }

  /**
   * The loop of snapshotDiff as written: one pass over the checked paths,
   * skipping those without a record, pushing one entry for each other path and
   * updating the two counters.
   */
  method CompareAll(paths: seq<string>, repos: seq<RepositoryInfo>, live: string -> LiveRepo)
    returns (entries: seq<DiffRepository>, reposChanged: nat, totalFilesChanged: nat)
    ensures entries == Entries(Outcomes(paths, repos, live))
    ensures reposChanged == CountChanged(Outcomes(paths, repos, live))
    ensures totalFilesChanged == TotalFiles(Outcomes(paths, repos, live))
  {
    entries := [];
    reposChanged := 0;
    totalFilesChanged := 0;
    ghost var done: seq<PathOutcome> := [];
    var i := 0;
    while i < |paths|
      invariant 0 <= i <= |paths|
      invariant done == Outcomes(paths[..i], repos, live)
      invariant entries == Entries(done)
      invariant reposChanged == CountChanged(done)
      invariant totalFilesChanged == TotalFiles(done)
    {
      entries, reposChanged, totalFilesChanged := Visit(paths[i], repos, live, entries, reposChanged, totalFilesChanged);
      OutcomesStep(paths, repos, live, i);
      FoldStep(done, PathStep(paths[i], repos, live));
      done := done + PathStep(paths[i], repos, live);
      i := i + 1;
    }
    assert paths[..i] == paths;
  }

  /** The paths diff checks: the requested ones, or every recorded path in metadata order. */
  function PathsToCheck(input: DiffInput, m: SnapshotMetadata): (r: seq<string>)
    ensures input.paths.None? ==>
      |r| == |m.repositories| && forall i :: 0 <= i < |r| ==> r[i] == m.repositories[i].path
    ensures input.paths.Some? ==> r == input.paths.value
  {
    match input.paths
    case Some(ps) => ps
    case None => seq(|m.repositories|, i requires 0 <= i < |m.repositories| => m.repositories[i].path)
  }

  /**
   * The diff procedure. `listError` is the error the list call throws, if it
   * throws; `listing` is the keys it returns under "snapshots/" otherwise;
   * `fetch` the download and parse of a metadata document.
   */
  method SnapshotDiff(
    input: DiffInput, listError: Option<string>, listing: seq<string>,
    fetch: string -> Result<SnapshotMetadata, string>, live: string -> LiveRepo)
    returns (calls: seq<StoreCall>, r: Result<DiffOutput, string>)
    // the list call comes first; the metadata key found is the only download
    ensures listError.Some? || FindMetadataKey(listing, input.id).None? ==> calls == [List(SnapshotsPrefix, None)]
    ensures listError.None? && FindMetadataKey(listing, input.id).Some? ==>
      calls == [List(SnapshotsPrefix, None), Download(FindMetadataKey(listing, input.id).value)]
    ensures listError.Some? ==> r == Failure(listError.value)
    ensures listError.None? && FindMetadataKey(listing, input.id).None? ==> r == Failure(NotFound(input.id))
    ensures listError.None? && FindMetadataKey(listing, input.id).Some? &&
            fetch(FindMetadataKey(listing, input.id).value).Failure? ==>
      r == Failure(fetch(FindMetadataKey(listing, input.id).value).error)
    ensures r.Success? ==>
      var key := FindMetadataKey(listing, input.id);
      && listError.None?
      && key.Some? && fetch(key.value).Success?
      && var m := fetch(key.value).value;
      && var os := Outcomes(PathsToCheck(input, m), m.repositories, live);
      && r.value.snapshotMetadata == m
      && r.value.repositories == Entries(os)
      && r.value.summary.reposChanged == CountChanged(os)
      && r.value.summary.totalFilesChanged == TotalFiles(os)
      && 0 <= r.value.summary.reposChanged <= |r.value.repositories| <= |PathsToCheck(input, m)|
      && r.value.summary.totalFilesChanged >= 0
      && (r.value.summary.isMatch <==> r.value.summary.reposChanged == 0)
    ensures listError.None? && FindMetadataKey(listing, input.id).Some? &&
            fetch(FindMetadataKey(listing, input.id).value).Success? ==>
      r.Success?
  {
    calls := [List(SnapshotsPrefix, None)];
    if listError.Some? {
      return calls, Failure(listError.value);
    }
    var key := FindMetadataKey(listing, input.id);
    if key.None? {
      return calls, Failure(NotFound(input.id));
    }
    calls := calls + [Download(key.value)];
    var downloaded := fetch(key.value);
    if downloaded.Failure? {
      return calls, Failure(downloaded.error);
    }
    var m := downloaded.value;
    var paths := PathsToCheck(input, m);
    var entries, reposChanged, totalFilesChanged := CompareAll(paths, m.repositories, live);
    CountChangedBounds(Outcomes(paths, m.repositories, live));
    r := Success(DiffOutput(m, entries, DiffSummary(reposChanged, totalFilesChanged, reposChanged == 0)));
  }

  // ---------------------------------------------------------------------------
  // an unchanged environment matches its snapshot
  // ---------------------------------------------------------------------------

  /** The live state reports exactly what the record holds. */
  predicate Agrees(live: LiveRepo, rec: RepositoryInfo) {
    && live.present
    && live.branch == Success(rec.branch)
    && live.commit == Success(rec.commit)
    && live.stashes == Success(rec.stashCount)
  }

  /**
   * When every checked path reports what its record holds, no entry shows a
   * difference, nothing counts as changed and no file is counted.
   */
  lemma {:induction false} UnchangedRepositoriesMatch(
    paths: seq<string>, repos: seq<RepositoryInfo>, live: string -> LiveRepo)
    requires forall p :: p in paths && FindRecord(repos, p).Some? ==> Agrees(live(p), FindRecord(repos, p).value)
    ensures CountChanged(Outcomes(paths, repos, live)) == 0
    ensures TotalFiles(Outcomes(paths, repos, live)) == 0
    ensures forall e :: e in Entries(Outcomes(paths, repos, live)) ==>
      e.branchDiff.None? && e.commitDiff.None? && e.filesChanged == 0 && e.newStashes == 0
  {
    if |paths| > 0 {
      var init := paths[..|paths| - 1];
      assert forall p :: p in init ==> p in paths;
      UnchangedRepositoriesMatch(init, repos, live);
      var before := Outcomes(init, repos, live);
      var os := Outcomes(paths, repos, live);
      var p := paths[|paths| - 1];
      if FindRecord(repos, p).Some? {
        assert os == before + [CompareRepo(p, FindRecord(repos, p).value, live(p))];
        assert os[..|os| - 1] == before;
        assert forall e :: e in Entries(os) ==> e in Entries(before) || e == os[|os| - 1].entry;
      }
    }
  }
}
