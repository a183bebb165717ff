/** BlobService: the operations on blobs, on the shared tables and the storage driver. */
module BlobServices {
  import opened Wrappers
  import opened Paths
  import opened Trees
  import opened Store
  import opened BlobModel
  import opened Repositories
  import opened FilesystemDrivers

  class BlobService {
    const repo: BlobRepository
    const storage: FilesystemDriver
    const cfg: Config

    constructor (repo: BlobRepository, storage: FilesystemDriver, cfg: Config)
      ensures this.repo == repo && this.storage == storage && this.cfg == cfg
    {
      this.repo, this.storage, this.cfg := repo, storage, cfg;
    }

    ghost function View(): State
      reads repo.db, storage
    {
      State(repo.db.blobs, repo.db.uploads, storage.Model())
    }

    /** Upload; id is the UUID drawn for it. pick is the answer of GetByHash, when it is asked. */
    method Upload(input: UploadInput, id: UUID, now: int) returns (r: Result<Blob, Failure>, ghost pick: Option<UUID>)
      modifies repo.db, storage
      ensures pick.Some? ==> pick.value in old(repo.db.blobs)
      ensures BlobModel.Upload(cfg, old(View()), input, id, now, pick) == Reply(View(), r)
      ensures cfg.dedup && r.Ok? ==> LatestWithHash(old(repo.db.blobs), cfg.sha(input.content), pick)
    {
      hide ValidBucketName, Trees.Put, Trees.Delete, Trees.Exists, BucketKey;
      hide EnsureBucketAsPromised, EnsureBucketAsWritten;
      pick := None;
      if !ValidBucketName(input.bucket) {
        return Err(InvalidBucket), pick;
      }
      var error := storage.EnsureBucket(cfg.ensure == AsPromised, input.bucket);
      if error.Some? {
        return Err(BucketFailed), pick;
      }
      error := storage.Put(input.bucket, id, input.content);
      if error.Some? {
        return Err(SaveFailed), pick;
      }
      var hash := cfg.sha(input.content);
      var path := input.bucket + "/" + id;
      var size := |input.content|;
      if cfg.dedup {
        var existing := repo.GetByHash(hash);
        pick := existing;
        if existing.Some? {
          var found := repo.db.blobs[existing.value];
          var (exBucket, exKey) := BucketKey(found.path);
          var ok := storage.Exists(exBucket, exKey);
          if ok {
            var _ := storage.Delete(input.bucket, id);
            path := found.path;
            size := found.size;
          }
        }
      }
      var blob := Blob(input.bucket, input.filename, size, hash, path, input.expiresAt, now);
      var saved := repo.Create(id, blob);
      if !saved {
        return Err(MetadataFailed), pick;
      }
      return Ok(blob), pick;
    }

    method Edit(id: UUID, input: EditInput) returns (r: Result<Blob, Failure>)
      modifies repo.db, storage
      ensures BlobModel.Edit(old(View()), id, input) == Reply(View(), r)
    {
      var found := repo.GetByID(id);
      if found.None? {
        return Err(NotFound);
      }
      var blob := found.value;
      if input.expiresAt.Some? {
        blob := blob.(expiresAt := input.expiresAt);
      }
      if input.filename.Some? && input.filename.value != "" {
        blob := blob.(filename := input.filename.value);
      }
      if input.bucket.Some? && input.bucket.value != "" {
        var oldBucket := blob.bucket;
        blob := blob.(bucket := input.bucket.value, path := input.bucket.value + "/" + id);
        var (srcBucket, srcKey) := BucketKey(oldBucket + "/" + id);
        var (dstBucket, dstKey) := BucketKey(blob.path);
        var error := storage.Move(srcBucket, srcKey, dstBucket, dstKey);
        if error.Some? {
          return Err(MoveFailed);
        }
      }
      repo.Update(id, blob);
      return Ok(blob);
    }

    method RemovePhysicalIfUnshared(path: string) returns (error: Option<StorageError>)
      modifies storage
      ensures RemovePhysical(repo.db.blobs, old(storage.Model()), path) == Done(storage.Model(), error)
    {
      if path == "" {
        return None;
      }
      var sharers := repo.FindByPath(path);
      if |sharers| > 1 {
        return None;
      }
      var (bucket, key) := BucketKey(path);
      error := storage.Delete(bucket, key);
    }

    method Delete(id: UUID) returns (r: Result<(), Failure>)
      modifies repo.db, storage
      ensures DeleteBlob(old(View()), id) == Reply(View(), r)
    {
      var found := repo.GetByID(id);
      if found.None? {
        return Err(NotFound);
      }
      var error := RemovePhysicalIfUnshared(found.value.path);
      if error.Some? {
        return Err(StorageFailed);
      }
      repo.Delete(id);
      return Ok(());
    }

    method OpenFile(id: UUID) returns (r: Result<(Blob, Bytes, nat), Failure>)
      ensures r == BlobModel.OpenFile(View(), id)
    {
      var found := repo.GetByID(id);
      if found.None? {
        return Err(NotFound);
      }
      var (bucket, key) := BucketKey(found.value.path);
      var info := storage.Stat(bucket, key);
      if info.Err? {
        return Err(StorageFailed);
      }
      var reader := storage.Open(bucket, key);
      if reader.Err? {
        return Err(StorageFailed);
      }
      return Ok((found.value, reader.value, info.value));
    }

    /** The purge loop; order is the order in which the expired rows were listed. */
    method PurgeExpired(now: int) returns (removed: nat, ghost order: seq<UUID>)
      modifies repo.db, storage
      ensures Lists(order, Expired(old(repo.db.blobs), now))
      ensures Purged(View(), removed) == BlobModel.PurgeExpired(old(View()), order)
    {
      var found, expired := repo.FindExpired(now);
      order := expired;
      removed := 0;
      for i := 0 to |expired|
        invariant forall id :: id in expired[i..] ==> id in found
        invariant PurgeLoop(Purged(View(), removed), found, expired[i..]) == BlobModel.PurgeExpired(old(View()), order)
      {
        var id := expired[i];
        assert expired[i..][0] == id && expired[i..][1..] == expired[i + 1..];
        ghost var before := Purged(View(), removed);
        var error := RemovePhysicalIfUnshared(found[id].path);
        if error.None? {
          repo.Delete(id);
          removed := removed + 1;
        }
        assert Purged(View(), removed) == PurgeOne(before, id, found[id].path);
      }
    }
  }
}
