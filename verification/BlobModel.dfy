/** BlobService as functions on the state. */
module BlobModel {
  import opened Wrappers
  import opened Text
  import opened Paths
  import opened Trees
  import opened Store

  /** validateBucketName. */
  predicate ValidBucketName(bucket: string) {
    var b := TrimSpace(bucket);
    b != "" && !IsAbs(b) && '\\' !in b && !Contains(b, "..") && !Contains(b, "//")
  }

  datatype UploadInput = UploadInput(bucket: string, filename: string, content: Bytes, expiresAt: Option<int>)

  datatype EditInput = EditInput(expiresAt: Option<int>, bucket: Option<string>, filename: Option<string>)

  function ExistsAt(t: Tree, path: string): bool {
    var (bucket, key) := BucketKey(path);
    Exists(t, bucket, key)
  }

  function DeleteAt(t: Tree, path: string): Done {
    var (bucket, key) := BucketKey(path);
    Delete(t, bucket, key)
  }

  /** The row an upload records; a reused row lends its path and size. */
  function NewRow(cfg: Config, input: UploadInput, id: UUID, now: int, reused: Option<Blob>): Blob {
    var path := if reused.Some? then reused.value.path else input.bucket + "/" + id;
    var size := if reused.Some? then reused.value.size else |input.content|;
    Blob(input.bucket, input.filename, size, cfg.sha(input.content), path, input.expiresAt, now)
  }

  /** Upload; id is the fresh UUID and pick the answer of GetByHash. */
  function Upload(cfg: Config, s: State, input: UploadInput, id: UUID, now: int, pick: Option<UUID>): Reply<Blob>
    requires pick.Some? ==> pick.value in s.rows
  {
    if !ValidBucketName(input.bucket) then Reply(s, Err(InvalidBucket))
    else
      var ensured := EnsureBucket(cfg.ensure, s.tree, input.bucket);
      if ensured.error.Some? then Reply(s.(tree := ensured.tree), Err(BucketFailed))
      else
        var put := Put(ensured.tree, input.bucket, id, input.content);
        if put.error.Some? then Reply(s.(tree := put.tree), Err(SaveFailed))
        else
          var reuse := cfg.dedup && pick.Some? && ExistsAt(put.tree, s.rows[pick.value].path);
          var tree := if reuse then Delete(put.tree, input.bucket, id).tree else put.tree;
          var blob := NewRow(cfg, input, id, now, if reuse then Some(s.rows[pick.value]) else None);
          if id in s.rows then Reply(s.(tree := tree), Err(MetadataFailed))
          else Reply(s.(rows := s.rows[id := blob], tree := tree), Ok(blob))
  }

  /** Edit; the moved file is looked up under the row's own bucket and id, not its path. */
  function Edit(s: State, id: UUID, input: EditInput): Reply<Blob> {
    if id !in s.rows then Reply(s, Err(NotFound))
    else
      var row := s.rows[id];
      var plain := row.(
        expiresAt := if input.expiresAt.Some? then input.expiresAt else row.expiresAt,
        filename := if input.filename.Some? && input.filename.value != "" then input.filename.value else row.filename);
      if input.bucket.Some? && input.bucket.value != "" then
        var path := input.bucket.value + "/" + id;
        var (srcBucket, srcKey) := BucketKey(row.bucket + "/" + id);
        var (dstBucket, dstKey) := BucketKey(path);
        var moved := Move(s.tree, srcBucket, srcKey, dstBucket, dstKey);
        if moved.error.Some? then Reply(s.(tree := moved.tree), Err(MoveFailed))
        else
          var blob := plain.(bucket := input.bucket.value, path := path);
          Reply(s.(rows := s.rows[id := blob], tree := moved.tree), Ok(blob))
      else Reply(s.(rows := s.rows[id := plain]), Ok(plain))
  }

  /** removePhysicalIfUnshared. */
  function RemovePhysical(rows: Rows, t: Tree, path: string): Done {
    if path == "" || |Sharers(rows, path)| > 1 then Done(t, None) else DeleteAt(t, path)
  }

  function DeleteBlob(s: State, id: UUID): Reply<()> {
    if id !in s.rows then Reply(s, Err(NotFound))
    else
      var gone := RemovePhysical(s.rows, s.tree, s.rows[id].path);
      if gone.error.Some? then Reply(s.(tree := gone.tree), Err(StorageFailed))
      else Reply(s.(rows := s.rows - {id}, tree := gone.tree), Ok(()))
  }

  /** OpenFile: the row, the bytes streamed and the size announced. */
  function OpenFile(s: State, id: UUID): Result<(Blob, Bytes, nat), Failure> {
    if id !in s.rows then Err(NotFound)
    else
      var (bucket, key) := BucketKey(s.rows[id].path);
      match Stat(s.tree, bucket, key)
      case Err(_) => Err(StorageFailed)
      case Ok(size) =>
        match Open(s.tree, bucket, key)
        case Err(_) => Err(StorageFailed)
        case Ok(content) => Ok((s.rows[id], content, size))
  }

  datatype Purged = Purged(state: State, removed: nat)

  /** One round of the purge loop on a row found expired; its path was read before the loop. */
  function PurgeOne(p: Purged, id: UUID, path: string): Purged {
    var gone := RemovePhysical(p.state.rows, p.state.tree, path);
    if gone.error.Some? then p.(state := p.state.(tree := gone.tree))
    else Purged(p.state.(rows := p.state.rows - {id}, tree := gone.tree), p.removed + 1)
  }

  /** The purge loop over the rows found expired, in the order they were listed. */
  function PurgeLoop(p: Purged, found: Rows, order: seq<UUID>): Purged
    requires forall id :: id in order ==> id in found
    decreases |order|
  {
    if order == [] then p
    else
      assert order[0] in order;
      PurgeLoop(PurgeOne(p, order[0], found[order[0]].path), found, order[1..])
  }

  function PurgeExpired(s: State, order: seq<UUID>): Purged
    requires forall id :: id in order ==> id in s.rows
  {
    PurgeLoop(Purged(s, 0), s.rows, order)
  }
}
