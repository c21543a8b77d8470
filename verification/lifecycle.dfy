/**
 * How the procedures fit together: the keys create writes are the keys
 * restore and diff look up and delete removes, and a diff taken while
 * nothing has moved since create reports a match.
 */
module Lifecycle {
  import opened Wrappers
  import opened Types
  import opened Text
  import opened Paths
  import opened Store
  import opened Catalog
  import opened Inspect
  import opened Diff
  import opened Restore
  import opened Deletion

  /** The only listed keys that mention the id are the two that create wrote. */
  predicate OnlyCreatedKeys(listing: seq<string>, name: string, id: string) {
    && MetadataKey(name, id) in listing
    && forall k :: k in listing && Contains(k, id) ==> k == MetadataKey(name, id) || k == ArchiveKey(name, id)
  }

  /** Lookup by id finds the metadata key create wrote. */
  lemma LookupFindsCreatedMetadata(listing: seq<string>, name: string, id: string)
    requires OnlyCreatedKeys(listing, name, id)
    ensures FindMetadataKey(listing, id) == Some(MetadataKey(name, id))
  {
    CreatedKeysLayout(name, id);
    var found := FindMetadataKey(listing, id);
    assert found.Some? by {
      assert IsMetadataKeyFor(MetadataKey(name, id), id);
    }
  }

  /**
   * When the listing returns, restore downloads the metadata key and then
   * the archive key create wrote, as long as neither the name nor the id contains the metadata
   * suffix.
   */
  lemma RestoreDownloadsCreatedKeys(input: RestoreInput, env: RestoreEnv, name: string)
    requires env.listError.None?
    requires OnlyCreatedKeys(env.listing, name, input.id)
    requires !Contains(name, MetadataSuffix) && !Contains(input.id, MetadataSuffix)
    ensures var run := SnapshotRestore(input, env);
      && |run.calls| >= 2
      && run.calls[1] == Download(MetadataKey(name, input.id))
      && (|run.calls| == 3 ==> run.calls[2] == Download(ArchiveKey(name, input.id)))
  {
    LookupFindsCreatedMetadata(env.listing, name, input.id);
    ArchiveKeyRoundTrip(name, input.id);
  }

  /** Delete selects both keys create wrote, and a successful delete deletes both. */
  lemma DeleteRemovesCreatedKeys(
    input: DeleteInput, listError: Option<string>, listing: seq<string>, reply: string -> Outcome<string>, name: string)
    requires ArchiveKey(name, input.id) in listing && MetadataKey(name, input.id) in listing
    ensures Selected(listing, input.id) != []
    ensures var run := SnapshotDelete(input, listError, listing, reply);
      run.result.Success? ==>
        Delete(ArchiveKey(name, input.id)) in run.calls && Delete(MetadataKey(name, input.id)) in run.calls
  {
    CreatedKeysLayout(name, input.id);
    var keys := Selected(listing, input.id);
    assert ArchiveKey(name, input.id) in keys && MetadataKey(name, input.id) in keys;
    var run := SnapshotDelete(input, listError, listing, reply);
    if run.result.Success? {
      forall k | k in keys
        ensures Delete(k) in run.calls
      {
        var i :| 0 <= i < |keys| && keys[i] == k;
        assert run.calls[i + 1] == Delete(k);
      }
    }
  }

  /** What diff queries for a path still reports what create's probe saw. */
  predicate Unmoved(live: LiveRepo, probe: RepoProbe)
    requires QueriesSucceed(probe)
  {
    && live.present
    && live.branch == Success(probe.status.value.branch)
    && live.commit == Success(probe.head.value)
    && live.stashes == Success(probe.stashes.GetOr(0))
  }

  /**
   * A diff over create's paths, against the records create made for them,
   * reports a match while every repository is where create saw it. Each
   * checked path finds the record create made for that very path.
   */
  lemma DiffAfterCreateMatches(paths: seq<string>, probe: string -> RepoProbe, live: string -> LiveRepo)
    requires forall p :: p in paths ==> QueriesSucceed(probe(p)) && Unmoved(live(p), probe(p))
    ensures var os := Outcomes(paths, InspectAll(paths, probe), live);
      CountChanged(os) == 0 && TotalFiles(os) == 0
  {
    var repos := InspectAll(paths, probe);
    forall p | p in paths && FindRecord(repos, p).Some?
      ensures Agrees(live(p), FindRecord(repos, p).value)
    {
      var i :| 0 <= i < |paths| && paths[i] == p;
      assert repos[i].path == p;
      FindRecordChoice(repos, p);
      var rec := FindRecord(repos, p).value;
      var k :| 0 <= k < |repos| && repos[k] == rec && repos[k].path == p;
      assert rec == RepositoryInfoOf(p, probe(p));
    }
    UnchangedRepositoriesMatch(paths, repos, live);
  }

  /** Two repositories in different directories under one directory name, at different commits. */
  const SharedPaths: seq<string> := ["/a/app", "/b/app"]

  function SharedProbe(p: string): RepoProbe {
    RepoProbe(Success(GitStatus("main", true, 0, 0)), Success(if p == "/a/app" then "c1" else "c2"), None, Some(0), None)
  }

  function SharedLive(p: string): LiveRepo {
    LiveRepo(true, Success("main"), Success(if p == "/a/app" then "c1" else "c2"), Success(""), Success(0))
  }

  lemma SharedPathsDiffer()
    ensures "/a/app" != "/b/app"
  {
    assert "/a/app"[1] != "/b/app"[1];
  }

  lemma SharedBasenames()
    ensures Basename("/a/app") == "app" && Basename("/b/app") == "app"
  {
    assert Join("/a", "app") == "/a/app" && Join("/b", "app") == "/b/app";
    BasenameOfJoin("/a", "app");
    BasenameOfJoin("/b", "app");
  }

  /** The records create makes for the two shared-name paths. */
  lemma SharedRecords()
    ensures InspectAll(SharedPaths, SharedProbe) == [SharedRecordA, SharedRecordB]
  {
    SharedPathsDiffer();
    SharedBasenames();
  }

  const SharedRecordA := RepositoryInfo("/a/app", "app", "main", "c1", false, 0, None, 0, 0)
  const SharedRecordB := RepositoryInfo("/b/app", "app", "main", "c2", false, 0, None, 0, 0)

  /** "/b/app" at commit c2, compared with the record of "/a/app" at commit c1, counts as changed. */
  lemma SharedComparisons()
    ensures SharedLive("/b/app") == LiveRepo(true, Success("main"), Success("c2"), Success(""), Success(0))
    ensures CompareRepo("/b/app", SharedRecordA, SharedLive("/b/app")).changed
    ensures !CompareRepo("/b/app", SharedRecordB, SharedLive("/b/app")).changed
  {
    SharedPathsDiffer();
    assert "c2" != "c1" by {
      assert "c2"[1] != "c1"[1];
    }
  }

  /** Nothing moves between create and diff: each path reports what create's probe saw. */
  lemma SharedUnmoved()
    ensures forall p :: p in SharedPaths ==> QueriesSucceed(SharedProbe(p)) && Unmoved(SharedLive(p), SharedProbe(p))
  {
  }

  /**
   * The lookup as written misattributes a repository: create records "/a/app"
   * and "/b/app", both named "app"; nothing moves; yet diff.js compares
   * "/b/app" with the record of "/a/app" and counts it as changed. The
   * intended lookup finds the record of "/b/app" itself.
   */
  lemma SharedBasenameAsWritten()
    ensures var repos := InspectAll(SharedPaths, SharedProbe);
      && FindRecordAsWritten(repos, "/b/app") == Some(repos[0])
      && repos[0].path == "/a/app"
      && CompareRepo("/b/app", repos[0], SharedLive("/b/app")).changed
      && FindRecord(repos, "/b/app") == Some(repos[1])
      && !CompareRepo("/b/app", repos[1], SharedLive("/b/app")).changed
  {
    SharedRecords();
    SharedComparisons();
    SharedLookups();
  }

  /** Looking up "/b/app" in the two records: by name as written, by path as intended. */
  lemma SharedLookups()
    ensures FindRecordAsWritten([SharedRecordA, SharedRecordB], "/b/app") == Some(SharedRecordA)
    ensures FindRecord([SharedRecordA, SharedRecordB], "/b/app") == Some(SharedRecordB)
  {
    SharedPathsDiffer();
    var repos := [SharedRecordA, SharedRecordB];
    assert Matches(SharedRecordA, "/b/app") by {
      SharedBasenames();
    }
    assert FirstRecord(repos, (rec: RepositoryInfo) => rec.path == "/b/app") == Some(SharedRecordB);
  }
}
