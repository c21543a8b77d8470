/**
 * Where snapshots live in the store and how one is found by id: the key layout
 * written by create, the first-match lookup shared by diff and restore, and the
 * archive key restore derives from a metadata key.
 */
module Catalog {
  import opened Wrappers
  import opened Text

  const SnapshotsPrefix: string := "snapshots/"
  const MetadataSuffix: string := ".metadata.json"
  const ArchiveSuffix: string := ".tar.gz"

  /** The key of the archive of snapshot `id` named `name`. */
  function ArchiveKey(name: string, id: string): string {
    SnapshotsPrefix + name + "/" + id + ArchiveSuffix
  }

  /** The key of the metadata document of snapshot `id` named `name`. */
  function MetadataKey(name: string, id: string): string {
    SnapshotsPrefix + name + "/" + id + MetadataSuffix
  }

  /** The lookup test: the key mentions the id and is a metadata document. */
  predicate IsMetadataKeyFor(key: string, id: string) {
    Contains(key, id) && EndsWith(key, MetadataSuffix)
  }

  /** The first listed key that passes the lookup test. */
  function FindMetadataKey(keys: seq<string>, id: string): (r: Option<string>)
    ensures r.None? <==> forall k :: k in keys ==> !IsMetadataKeyFor(k, id)
    ensures r.Some? ==> IsMetadataKeyFor(r.value, id)
    ensures r.Some? ==> exists i :: 0 <= i < |keys| && keys[i] == r.value &&
                                (forall j :: 0 <= j < i ==> !IsMetadataKeyFor(keys[j], id))
  {
    if |keys| == 0 then None
    else if IsMetadataKeyFor(keys[0], id) then Some(keys[0])
    else
      var rest := keys[1..];
      assert forall k :: k in keys <==> k == keys[0] || k in rest;
      assert forall i :: 0 <= i < |rest| ==> rest[i] == keys[i + 1];
      FindMetadataKey(rest, id)
  }

  /** The archive key restore downloads: the first ".metadata.json" becomes ".tar.gz". */
  function ArchiveKeyFor(metadataKey: string): string {
    ReplaceFirst(metadataKey, MetadataSuffix, ArchiveSuffix)
  }

  /** Both keys create writes for a snapshot lie under the namespace and mention the id. */
  lemma CreatedKeysLayout(name: string, id: string)
    ensures StartsWith(MetadataKey(name, id), SnapshotsPrefix)
    ensures StartsWith(ArchiveKey(name, id), SnapshotsPrefix)
    ensures IsMetadataKeyFor(MetadataKey(name, id), id)
    ensures Contains(ArchiveKey(name, id), id)
    ensures !EndsWith(ArchiveKey(name, id), MetadataSuffix)
  {
    IdInKey(SnapshotsPrefix + name + "/", id, MetadataSuffix);
    IdInKey(SnapshotsPrefix + name + "/", id, ArchiveSuffix);
    var a := ArchiveKey(name, id);
    assert a[|a| - 1] == 'z';
    EndsWithLast(a, MetadataSuffix);
  }

  /** A key built around the id contains it. */
  lemma IdInKey(p: string, id: string, suffix: string)
    ensures Contains(p + id + suffix, id)
  {
    assert (p + id + suffix)[|p|..|p| + |id|] == id;
    assert OccursAt(p + id + suffix, id, |p|);
    ContainsIff(p + id + suffix, id);
  }

  /** ".metadata.json" contains 'n' only as its last character. */
  lemma MetadataSuffixShape()
    ensures forall k :: 0 <= k < |MetadataSuffix| - 1 ==> MetadataSuffix[k] != 'n'
    ensures MetadataSuffix[|MetadataSuffix| - 1] == 'n'
    ensures '/' !in MetadataSuffix
  {
  }

  /**
   * An occurrence of ".metadata.json" in `p + ".metadata.json"` that starts
   * inside `p` but runs past its end is impossible: its final 'n' would have
   * to fall on an earlier character of the suffix.
   */
  lemma NoOverlappingSuffix(p: string, i: nat)
    requires |p| < i + |MetadataSuffix| && i < |p|
    ensures !OccursAt(p + MetadataSuffix, MetadataSuffix, i)
  {
    var s := p + MetadataSuffix;
    var last := i + |MetadataSuffix| - 1;
    if OccursAt(s, MetadataSuffix, i) {
      SliceAt(s, i, i + |MetadataSuffix|, last);
      MetadataSuffixShape();
      assert false;
    }
  }

  /**
   * The archive key restore derives from a metadata key written by create is
   * the archive key create wrote, provided neither the name nor the id
   * contains ".metadata.json" themselves.
   */
  lemma ArchiveKeyRoundTrip(name: string, id: string)
    requires !Contains(name, MetadataSuffix) && !Contains(id, MetadataSuffix)
    ensures ArchiveKeyFor(MetadataKey(name, id)) == ArchiveKey(name, id)
  {
    var p := SnapshotsPrefix + name + "/" + id;
    MetadataSuffixShape();
    assert !Contains("snapshots", MetadataSuffix);
    NotContainsAcross(name, '/', id, MetadataSuffix);
    assert !Contains(name + "/" + id, MetadataSuffix) by {
      ContainsIff(name + "/" + id, MetadataSuffix);
    }
    NotContainsAcross("snapshots", '/', name + "/" + id, MetadataSuffix);
    assert p == "snapshots" + ['/'] + (name + "/" + id);
    forall i: nat | i < |p|
      ensures !OccursAt(p + MetadataSuffix, MetadataSuffix, i)
    {
      if i + |MetadataSuffix| <= |p| {
        assert (p + MetadataSuffix)[i..i + |MetadataSuffix|] == p[i..i + |MetadataSuffix|];
        assert !OccursAt(p, MetadataSuffix, i);
      } else {
        NoOverlappingSuffix(p, i);
      }
    }
    ReplaceFirstAtEnd(p, MetadataSuffix, ArchiveSuffix);
    assert MetadataKey(name, id) == p + MetadataSuffix;
    assert ArchiveKey(name, id) == p + ArchiveSuffix;
  }
}
