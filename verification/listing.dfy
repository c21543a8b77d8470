/**
 * snapshotList: list the catalog, keep the first maxResults metadata keys,
 * download and project each one, skipping the ones that fail, and sort the
 * entries newest first. `Array.prototype.sort` is stable, and so is the
 * insertion sort here.
 */
module Listing {
  import opened Wrappers
  import opened Types
  import opened Text
  import opened Store
  import opened Catalog
  import opened Seqs

  /**
   * The inputs of one list call that come from outside the procedure: the
   * keys the store lists, the download and parse of each metadata key, and
   * `new Date(createdAt).getTime()`.
   */
  datatype ListEnv = ListEnv(
    listError: Option<string>,   // the error the list call throws, if it throws
    listing: seq<string>,        // otherwise, the keys it returns
    fetch: string -> Option<SnapshotMetadata>,
    time: string -> int)

  datatype ListRun = ListRun(calls: seq<StoreCall>, result: Result<ListOutput, string>)

  /** The store prefix: the name prefix, when one is given, under "snapshots/". */
  function ListPrefix(prefix: Option<string>): (r: string)
    ensures StartsWith(r, SnapshotsPrefix)
    ensures prefix.None? || prefix.value == "" ==> r == SnapshotsPrefix
    ensures prefix.Some? ==> r == SnapshotsPrefix + prefix.value
  {
    if prefix.Some? && prefix.value != "" then SnapshotsPrefix + prefix.value else SnapshotsPrefix
  }

  /** The listed keys with the metadata suffix, in listing order. */
  function MetadataListed(listing: seq<string>): (r: seq<string>)
    ensures IsSubsequence(r, listing)
    ensures forall k :: k in r <==> k in listing && EndsWith(k, MetadataSuffix)
    ensures forall k :: multiset(r)[k] == if EndsWith(k, MetadataSuffix) then multiset(listing)[k] else 0
  {
    FilterCounts(listing, k => EndsWith(k, MetadataSuffix));
    Filter(listing, k => EndsWith(k, MetadataSuffix))
  }

  /** The metadata keys to download: the first maxResults of them (`slice(0, maxResults)`). */
  function MetadataKeys(listing: seq<string>, maxResults: int): (keys: seq<string>)
    ensures |keys| <= |MetadataListed(listing)| && keys == MetadataListed(listing)[..|keys|]
    ensures 0 <= maxResults ==> |keys| == Min(maxResults, |MetadataListed(listing)|)
    ensures maxResults < 0 ==> |keys| == Max(0, |MetadataListed(listing)| + maxResults)
    ensures forall k :: k in keys ==> k in listing && EndsWith(k, MetadataSuffix)
  {
    var all := MetadataListed(listing);
    var keys := SliceTo(all, maxResults);
    assert forall k :: k in keys ==> k in all;
    keys
  }

  /** One list entry from a metadata document. */
  function Project(m: SnapshotMetadata): ListEntry {
    ListEntry(m.id, m.name, m.preset, m.createdAt, m.archiveSize, m.environment.os)
  }

  /** The entries of the keys whose download and parse succeed, in key order. */
  function Fetched(keys: seq<string>, fetch: string -> Option<SnapshotMetadata>): (r: seq<ListEntry>)
    ensures |r| <= |keys|
    ensures forall e :: e in r <==>
      exists i :: 0 <= i < |keys| && fetch(keys[i]).Some? && e == Project(fetch(keys[i]).value)
    ensures (forall i :: 0 <= i < |keys| ==> fetch(keys[i]).Some?) ==> |r| == |keys|
  {
    if |keys| == 0 then []
    else
      var rest := keys[1..];
      var tail := Fetched(rest, fetch);
      assert forall i :: 0 <= i < |rest| ==> rest[i] == keys[i + 1];
      match fetch(keys[0])
      case Some(m) => [Project(m)] + tail
      case None => tail
  }

  /**
   * One entry per key that fetches, in key order: the i-th entry comes from
   * the i-th key whose download and parse succeed.
   */
  lemma {:induction false} FetchedFollowsKeys(keys: seq<string>, fetch: string -> Option<SnapshotMetadata>)
    ensures var ok := Filter(keys, k => fetch(k).Some?);
      && |Fetched(keys, fetch)| == |ok|
      && forall i :: 0 <= i < |ok| ==> fetch(ok[i]).Some? && Fetched(keys, fetch)[i] == Project(fetch(ok[i]).value)
    decreases |keys|
  {
    if |keys| > 0 {
      FetchedFollowsKeys(keys[1..], fetch);
    }
  }

  /** Newest first: no entry is older than one after it. */
  predicate NewestFirst(s: seq<ListEntry>, time: string -> int) {
    forall i, j :: 0 <= i < j < |s| ==> time(s[i].createdAt) >= time(s[j].createdAt)
  }

  /** `x` placed before the first entry that is not newer than it. */
  function Insert(x: ListEntry, s: seq<ListEntry>, time: string -> int): seq<ListEntry> {
    if |s| == 0 || time(s[0].createdAt) <= time(x.createdAt) then [x] + s
    else [s[0]] + Insert(x, s[1..], time)
  }

  /** Insertion adds exactly `x`, puts `x` or the old head first, and keeps the order. */
  lemma {:induction false} InsertKeepsNewestFirst(x: ListEntry, s: seq<ListEntry>, time: string -> int)
    ensures multiset(Insert(x, s, time)) == multiset(s) + multiset{x}
    ensures |Insert(x, s, time)| == |s| + 1
    ensures Insert(x, s, time)[0] == x || (|s| > 0 && Insert(x, s, time)[0] == s[0])
    ensures NewestFirst(s, time) ==> NewestFirst(Insert(x, s, time), time)
    decreases |s|
  {
    if |s| == 0 || time(s[0].createdAt) <= time(x.createdAt) {
      ConsNewestFirst(x, s, time);
    } else {
      var rest := Insert(x, s[1..], time);
      InsertKeepsNewestFirst(x, s[1..], time);
      assert s == [s[0]] + s[1..];
      TailNewestFirst(s, time);
      ConsNewestFirst(s[0], rest, time);
    }
  }

  /** Dropping the head keeps the order. */
  lemma TailNewestFirst(s: seq<ListEntry>, time: string -> int)
    ensures NewestFirst(s, time) && |s| > 0 ==> NewestFirst(s[1..], time)
  {
    if NewestFirst(s, time) && |s| > 0 {
      forall i, j | 0 <= i < j < |s| - 1
        ensures time(s[1..][i].createdAt) >= time(s[1..][j].createdAt)
      {
        assert s[1..][i] == s[i + 1] && s[1..][j] == s[j + 1];
      }
    }
  }

  /** Putting an entry at least as new as the head in front keeps the order. */
  lemma ConsNewestFirst(y: ListEntry, s: seq<ListEntry>, time: string -> int)
    ensures NewestFirst(s, time) && (|s| == 0 || time(s[0].createdAt) <= time(y.createdAt)) ==>
      NewestFirst([y] + s, time)
  {
    var r := [y] + s;
    if !(NewestFirst(s, time) && (|s| == 0 || time(s[0].createdAt) <= time(y.createdAt))) { return; }
    forall i, j | 0 <= i < j < |r|
      ensures time(r[i].createdAt) >= time(r[j].createdAt)
    {
      if i == 0 {
        assert r[j] == s[j - 1];
        if j > 1 { assert time(s[0].createdAt) >= time(s[j - 1].createdAt); }
      } else {
        assert r[i] == s[i - 1] && r[j] == s[j - 1];
      }
    }
  }

  /** `snapshots.sort` by createdAt, newest first: insertion sort. */
  function SortNewestFirst(s: seq<ListEntry>, time: string -> int): seq<ListEntry> {
    if |s| == 0 then [] else Insert(s[0], SortNewestFirst(s[1..], time), time)
  }

  /** The sort puts the entries newest first and neither adds nor drops any. */
  lemma SortedPermutation(s: seq<ListEntry>, time: string -> int)
    ensures NewestFirst(SortNewestFirst(s, time), time)
    ensures multiset(SortNewestFirst(s, time)) == multiset(s)
  {
    SortIsNewestFirst(s, time);
    SortKeepsEntries(s, time);
  }

  lemma {:induction false} SortIsNewestFirst(s: seq<ListEntry>, time: string -> int)
    ensures NewestFirst(SortNewestFirst(s, time), time)
    decreases |s|
  {
    if |s| > 0 {
      SortIsNewestFirst(s[1..], time);
      InsertKeepsNewestFirst(s[0], SortNewestFirst(s[1..], time), time);
    }
  }

  lemma {:induction false} SortKeepsEntries(s: seq<ListEntry>, time: string -> int)
    ensures multiset(SortNewestFirst(s, time)) == multiset(s)
    decreases |s|
  {
    if |s| > 0 {
      SortKeepsEntries(s[1..], time);
      InsertKeepsNewestFirst(s[0], SortNewestFirst(s[1..], time), time);
      assert s == [s[0]] + s[1..];
    }
  }

  /** The entries created at time `t`, in their order. */
  function SameTime(s: seq<ListEntry>, time: string -> int, t: int): seq<ListEntry> {
    if |s| == 0 then []
    else (if time(s[0].createdAt) == t then [s[0]] else []) + SameTime(s[1..], time, t)
  }

  /** The selection holds exactly the entries created at `t`. */
  lemma {:induction false} SameTimeMembers(s: seq<ListEntry>, time: string -> int, t: int)
    ensures forall e :: e in SameTime(s, time, t) <==> e in s && time(e.createdAt) == t
    decreases |s|
  {
    if |s| > 0 {
      SameTimeMembers(s[1..], time, t);
      assert forall e :: e in s <==> e == s[0] || e in s[1..];
    }
  }

  lemma SameTimeCons(x: ListEntry, s: seq<ListEntry>, time: string -> int, t: int)
    ensures SameTime([x] + s, time, t) == (if time(x.createdAt) == t then [x] else []) + SameTime(s, time, t)
  {
    assert ([x] + s)[1..] == s;
  }

  lemma {:induction false} InsertStable(x: ListEntry, s: seq<ListEntry>, time: string -> int, t: int)
    ensures SameTime(Insert(x, s, time), time, t) ==
            (if time(x.createdAt) == t then [x] else []) + SameTime(s, time, t)
    decreases |s|
  {
    if |s| == 0 || time(s[0].createdAt) <= time(x.createdAt) {
      SameTimeCons(x, s, time, t);
    } else {
      InsertStable(x, s[1..], time, t);
      InsertStableStep(x, s, time, t);
    }
  }

  /** The step of InsertStable when `x` goes after the head of `s`. */
  lemma InsertStableStep(x: ListEntry, s: seq<ListEntry>, time: string -> int, t: int)
    requires |s| > 0 && time(s[0].createdAt) > time(x.createdAt)
    requires SameTime(Insert(x, s[1..], time), time, t) ==
             (if time(x.createdAt) == t then [x] else []) + SameTime(s[1..], time, t)
    ensures SameTime(Insert(x, s, time), time, t) ==
            (if time(x.createdAt) == t then [x] else []) + SameTime(s, time, t)
  {
    var rest := Insert(x, s[1..], time);
    var added := if time(x.createdAt) == t then [x] else [];
    var head := if time(s[0].createdAt) == t then [s[0]] else [];
    var tail := SameTime(s[1..], time, t);
    assert Insert(x, s, time) == [s[0]] + rest;
    SameTimeCons(s[0], rest, time, t);
    assert SameTime(s, time, t) == head + tail;
    assert head == [] || added == [];
    assert head + (added + tail) == added + (head + tail);
  }


  /** The sort is stable: entries created at the same time keep their order. */
  lemma {:induction false} SortStable(s: seq<ListEntry>, time: string -> int, t: int)
    ensures SameTime(SortNewestFirst(s, time), time, t) == SameTime(s, time, t)
    decreases |s|
  {
    if |s| > 0 {
      SortStable(s[1..], time, t);
      InsertStable(s[0], SortNewestFirst(s[1..], time), time, t);
      SameTimeCons(s[0], s[1..], time, t);
      assert s == [s[0]] + s[1..];
    }
  }

  /** The whole list procedure. */
  function SnapshotList(input: ListInput, env: ListEnv): (run: ListRun)
    ensures |run.calls| >= 1 && run.calls[0] == List(ListPrefix(input.prefix), Some(2 * input.maxResults))
    // a failed listing is the only error; nothing is downloaded after it
    ensures run.result.Failure? <==> env.listError.Some?
    ensures env.listError.Some? ==> run.calls == [run.calls[0]] && run.result == Failure(env.listError.value)
    ensures env.listError.None? ==>
      var keys := MetadataKeys(env.listing, input.maxResults);
      var output := run.result.value;
      && |run.calls| == 1 + |keys|
      && (forall i :: 0 <= i < |keys| ==> run.calls[i + 1] == Download(keys[i]))
      && NewestFirst(output.snapshots, env.time)
      && multiset(output.snapshots) == multiset(Fetched(keys, env.fetch))
      && output.count == |output.snapshots| <= |keys|
      && (0 <= input.maxResults ==> output.count <= input.maxResults)
  {
    var list := List(ListPrefix(input.prefix), Some(2 * input.maxResults));
    if env.listError.Some? then ListRun([list], Failure(env.listError.value))
    else
      var keys := MetadataKeys(env.listing, input.maxResults);
      var fetched := Fetched(keys, env.fetch);
      var snapshots := SortNewestFirst(fetched, env.time);
      SortedPermutation(fetched, env.time);
      assert |snapshots| == |multiset(snapshots)| == |fetched|;
      ListRun([list] + seq(|keys|, i requires 0 <= i < |keys| => Download(keys[i])),
              Success(ListOutput(snapshots, |snapshots|)))
  }

  /**
   * Entries created at the same time come out in the order their metadata
   * keys were listed.
   */
  lemma ListKeepsListingOrder(input: ListInput, env: ListEnv, t: int)
    requires env.listError.None?
    ensures SameTime(SnapshotList(input, env).result.value.snapshots, env.time, t) ==
            SameTime(Fetched(MetadataKeys(env.listing, input.maxResults), env.fetch), env.time, t)
  {
    SortStable(Fetched(MetadataKeys(env.listing, input.maxResults), env.fetch), env.time, t);
  }
}
