/**
 * The object-store calls the procedures issue, recorded as a trace. Every call
 * goes to the bucket named in the request, so the bucket is not recorded.
 */
module Store {
  import opened Wrappers
  import opened Types

  /** The reply to one uploaded part, as the store reports it. */
  datatype PartAck = PartAck(etag: string, partNumber: int)

  /** The object metadata attached to an archive uploaded in one piece. */
  datatype ArchiveTags = ArchiveTags(snapshotId: string, snapshotName: string, preset: Preset, checksum: string)

  datatype StoreCall =
    | List(prefix: string, maxKeys: Option<int>)
    | Download(key: string)
    | PutArchive(key: string, body: seq<byte>, tags: ArchiveTags)
    | PutMetadata(key: string, document: SnapshotMetadata)
    | Delete(key: string)
    | MultipartInit(key: string)
    | MultipartPart(key: string, uploadId: string, partNumber: nat, body: seq<byte>)
    | MultipartComplete(key: string, uploadId: string, parts: seq<PartAck>)
    | MultipartAbort(key: string, uploadId: string)
}
