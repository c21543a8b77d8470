/**
 * getRepositoryInfo: the record create stores for one repository path. Every
 * git or file-system query is an input; inspection never fails, it degrades.
 */
module Inspect {
  import opened Wrappers
  import opened Types
  import opened Paths

  /** The reply of the git.status procedure. */
  datatype GitStatus = GitStatus(branch: string, clean: bool, ahead: int, behind: int)

  /** What the queries made for one repository path report. */
  datatype RepoProbe = RepoProbe(
    status: Result<GitStatus, string>,  // the git.status procedure
    head: Result<string, string>,       // `git rev-parse HEAD`, trimmed
    remote: Option<string>,             // `git remote get-url origin`, trimmed; None when it fails
    stashes: Option<int>,               // the count from git.stash.list; None when the call fails
    packageName: Option<string>)        // package.json's name; None when absent, unreadable or unnamed

  /** The two queries whose failure degrades the whole record. */
  predicate QueriesSucceed(probe: RepoProbe) {
    probe.status.Success? && probe.head.Success?
  }

  /** The package name when it is a non-empty string, the directory name otherwise. */
  function DisplayName(path: string, packageName: Option<string>): (r: string)
    ensures packageName.Some? && packageName.value != "" ==> r == packageName.value
    ensures packageName.None? || packageName.value == "" ==> r == Basename(path)
  {
    match packageName
    case Some(n) => if n != "" then n else Basename(path)
    case None => Basename(path)
  }

  /** The record stored for `path`. */
  function RepositoryInfoOf(path: string, probe: RepoProbe): (r: RepositoryInfo)
    ensures r.path == path
    ensures !QueriesSucceed(probe) ==>
      && r.name == Basename(path)
      && r.branch == "" && r.commit == ""
      && !r.dirty
      && r.stashCount == 0 && r.ahead == 0 && r.behind == 0
      && r.remoteUrl.None?
    ensures QueriesSucceed(probe) ==>
      && r.name == DisplayName(path, probe.packageName)
      && r.branch == probe.status.value.branch
      && r.commit == probe.head.value
      && r.dirty == !probe.status.value.clean
      && r.stashCount == probe.stashes.GetOr(0)
      && r.remoteUrl == probe.remote
      && r.ahead == probe.status.value.ahead
      && r.behind == probe.status.value.behind
  {
    match (probe.status, probe.head)
    case (Success(st), Success(commit)) =>
      RepositoryInfo(
        path, DisplayName(path, probe.packageName), st.branch, commit, !st.clean,
        probe.stashes.GetOr(0), probe.remote, st.ahead, st.behind)
    case _ =>
      RepositoryInfo(path, Basename(path), "", "", false, 0, None, 0, 0)
  }

  /** The records of all paths, in the order of the paths. */
  function InspectAll(paths: seq<string>, probe: string -> RepoProbe): (r: seq<RepositoryInfo>)
    ensures |r| == |paths|
    ensures forall i :: 0 <= i < |paths| ==> r[i] == RepositoryInfoOf(paths[i], probe(paths[i]))
  {
    seq(|paths|, i requires 0 <= i < |paths| => RepositoryInfoOf(paths[i], probe(paths[i])))
  }
}
