/** MultipartService: upload sessions on the shared tables and the storage driver. */
module MultipartServices {
  import opened Wrappers
  import opened Text
  import opened Paths
  import opened Trees
  import opened Store
  import opened Int64
  import opened MultipartModel
  import opened Shapes
  import opened Repositories
  import opened FilesystemDrivers
  import opened BlobServices

  // ---------- facts about the file being assembled ----------

  /** Writing into the assembled file changes nothing about reading a chunk. */
  lemma ChunkBesideFinal(t: Tree, id: UUID, index: int, content: Bytes)
    ensures Trees.Open(t.(files := t.files[FinalObject(id) := content]), CHUNK_BUCKET, ChunkKey(id, index))
         == Trees.Open(t, CHUNK_BUCKET, ChunkKey(id, index))
  {
    hide Locate;
    ChunkLocation(id, index);
    ChunksDistinct(id, index, index);
  }

  /** Creating a file and writing to it is putting its final content. */
  lemma CreateThenWrite(t: Tree, id: UUID, content: Bytes)
    requires Put(t, CHUNK_BUCKET, FinalKey(id), []).error.None?
    ensures var created := Put(t, CHUNK_BUCKET, FinalKey(id), []).tree;
      && FinalObject(id) in created.files
      && Put(created, CHUNK_BUCKET, FinalKey(id), content)
        == Done(created.(files := created.files[FinalObject(id) := content]), None)
  {
    hide Locate;
    FinalLocation(id);
    var p := FinalObject(id);
    var created := Write(t, p, []).tree;
    assert forall f :: f in created.files ==> f in t.files || f == p;
    assert !ThroughFile(created, p);
    assert created.dirs + Ancestors(p) == created.dirs;
  }

  /** Deleting a file does not depend on what it held. */
  lemma DeleteIgnoresContent(t: Tree, id: UUID, content: Bytes)
    requires FinalObject(id) in t.files
    ensures Delete(t.(files := t.files[FinalObject(id) := content]), CHUNK_BUCKET, FinalKey(id))
         == Delete(t, CHUNK_BUCKET, FinalKey(id))
  {
    hide Locate, PruneParents;
    FinalLocation(id);
    assert t.files[FinalObject(id) := content] - {FinalObject(id)} == t.files - {FinalObject(id)};
  }

  class MultipartService {
    const repo: MultipartRepository
    const blobs: BlobService
    const storage: FilesystemDriver
    const cfg: Config

    constructor (blobs: BlobService)
      ensures this.blobs == blobs && storage == blobs.storage && cfg == blobs.cfg && repo.db == blobs.repo.db
    {
      var r := new MultipartRepository(blobs.repo.db);
      this.repo, this.blobs, this.storage, this.cfg := r, blobs, blobs.storage, blobs.cfg;
    }

    /** The service shares the tables and the storage of the blob service. */
    ghost predicate Wired() {
      storage == blobs.storage && cfg == blobs.cfg && repo.db == blobs.repo.db
    }

    ghost function View(): State
      reads repo.db, storage
    {
      State(repo.db.blobs, repo.db.uploads, storage.Model())
    }

    /** Initiate; id is the UUID drawn for the session. */
    method Initiate(input: InitiateInput, id: UUID, now: int) returns (r: Result<UUID, Failure>)
      modifies repo.db, storage
      ensures MultipartModel.Initiate(cfg, old(View()), input, id, now) == Reply(View(), r)
    {
      var created := repo.Create(id, Session(input.userId, input.bucket, input.filename, input.size, [], false, now));
      if !created {
        return Err(SessionFailed);
      }
      var error := storage.EnsureBucket(cfg.ensure == AsPromised, CHUNK_BUCKET);
      if error.Some? {
        return Err(BucketFailed);
      }
      return Ok(id);
    }

    /** The sizes of the recorded chunks other than the one being replaced, added to total. */
    method AddStored(id: UUID, chunks: seq<int>, skip: int, written: int) returns (total: int)
      ensures total == written + StoredExcept(storage.Model(), id, chunks, skip)
    {
      total := written;
      for i := 0 to |chunks|
        invariant total + StoredExcept(storage.Model(), id, chunks[i..], skip)
               == written + StoredExcept(storage.Model(), id, chunks, skip)
      {
        assert chunks[i..][0] == chunks[i] && chunks[i..][1..] == chunks[i + 1..];
        if chunks[i] != skip {
          var info := storage.Stat(CHUNK_BUCKET, ChunkKey(id, chunks[i]));
          if info.Ok? {
            total := total + info.value;
          }
        }
      }
    }

    /** The checks of a stored chunk, in the order they are made. */
    method Verify(upload: Session, input: ChunkInput) returns (rejected: Option<Failure>)
      ensures rejected == CheckChunk(cfg, storage.Model(), upload, input)
    {
      hide Trees.Stat, StoredExcept, EqualFold, ChunkKey;
      var written := -1;
      var info := storage.Stat(CHUNK_BUCKET, ChunkKey(input.uploadId, input.index));
      if info.Ok? {
        written := info.value;
      }
      if cfg.minChunk > 0 && written < cfg.minChunk {
        return Some(ChunkTooSmall);
      }
      if cfg.maxChunk > 0 && written > cfg.maxChunk {
        return Some(ChunkTooLarge);
      }
      if !EqualFold(cfg.sha(input.body), input.hash) {
        return Some(HashMismatch);
      }
      if cfg.maxUpload > 0 {
        var total := AddStored(input.uploadId, upload.chunksDone, input.index, written);
        if total > cfg.maxUpload {
          return Some(UploadTooLarge);
        }
      }
      return None;
    }

    method UploadChunk(input: ChunkInput) returns (r: Result<(), Failure>)
      modifies repo.db, storage
      ensures MultipartModel.UploadChunk(cfg, old(View()), input) == Reply(View(), r)
    {
      hide Put, Trees.Delete, CheckChunk, ChunkKey;
      var id := input.uploadId;
      var session := repo.GetByID(id);
      if session.None? {
        return Err(InvalidUpload);
      }
      var upload := session.value;
      if upload.owner != input.userId {
        return Err(Unauthorized);
      }
      if upload.completed {
        return Err(AlreadyCompleted);
      }
      if input.hash == "" {
        return Err(MissingHash);
      }
      var key := ChunkKey(id, input.index);
      var error := storage.Put(CHUNK_BUCKET, key, input.body, input.broken);
      if error.Some? {
        return Err(SaveFailed);
      }
      var rejected := Verify(upload, input);
      if rejected.Some? {
        var _ := storage.Delete(CHUNK_BUCKET, key);
        return Err(rejected.value);
      }
      var found := false;
      for i := 0 to |upload.chunksDone|
        invariant !found && input.index !in upload.chunksDone[..i]
      {
        if upload.chunksDone[i] == input.index {
          found := true;
          break;
        }
      }
      if found {
        assert upload.(chunksDone := upload.chunksDone) == upload;
        assert old(repo.db.uploads)[id := upload] == old(repo.db.uploads);
      } else {
        assert upload.chunksDone[..|upload.chunksDone|] == upload.chunksDone;
        repo.UpdateChunks(id, upload.chunksDone + [input.index]);
      }
      return Ok(());
    }

    method Status(uploadId: UUID, userId: UUID, chunkSize: int) returns (r: Result<UploadStatus, Failure>)
      ensures r == MultipartModel.Status(View(), uploadId, userId, chunkSize)
    {
      var session := repo.GetByID(uploadId);
      if session.None? {
        return Err(InvalidUpload);
      }
      var upload := session.value;
      if upload.owner != userId {
        return Err(Unauthorized);
      }
      var size := if chunkSize <= 0 then DEFAULT_CHUNK_SIZE else chunkSize;
      var chunkMap: set<int> := {};
      for i := 0 to |upload.chunksDone|
        invariant forall v :: v in chunkMap <==> v in upload.chunksDone[..i]
      {
        chunkMap := chunkMap + {upload.chunksDone[i]};
      }
      assert upload.chunksDone[..|upload.chunksDone|] == upload.chunksDone;
      var totalChunks := Quotient(Wrap64(upload.size + size - 1), size);
      if totalChunks > MAX_STATUS_ENTRIES {
        return Err(TooManyChunks);
      }
      var missing := [];
      var i := 0;
      while i < totalChunks
        invariant missing + Missing(upload.chunksDone, i, totalChunks) == Missing(upload.chunksDone, 0, totalChunks)
        decreases totalChunks - i
      {
        if i !in chunkMap {
          missing := missing + [i];
        }
        i := i + 1;
      }
      assert missing + [] == missing;
      return Ok(UploadStatus(upload, size, totalChunks, missing));
    }

    /** The copy loop: the chunks are appended to the created file in the given order. */
    method CopyChunks(id: UUID, chunks: seq<int>) returns (complete: bool, ghost content: Bytes)
      requires FinalObject(id) in storage.files && storage.files[FinalObject(id)] == []
      modifies storage
      ensures storage.Model() == old(storage.Model()).(files := old(storage.files)[FinalObject(id) := content])
      ensures Assemble(old(storage.Model()), id, chunks) == if complete then Some(content) else None
    {
      hide Trees.Open, ChunkKey, FinalObject;
      ghost var created := storage.Model();
      var final := FinalObject(id);
      content := [];
      assert created.files[final := content] == created.files;
      assert chunks[0..] == chunks && forall rest: Bytes :: content + rest == rest;
      for i := 0 to |chunks|
        invariant final in storage.files && storage.Model() == created.(files := created.files[final := content])
        invariant var rest := Assemble(created, id, chunks[i..]);
          Assemble(created, id, chunks) == if rest.None? then None else Some(content + rest.value)
      {
        assert chunks[i..][0] == chunks[i] && chunks[i..][1..] == chunks[i + 1..];
        ChunkBesideFinal(created, id, chunks[i], content);
        var chunk := storage.Open(CHUNK_BUCKET, ChunkKey(id, chunks[i]));
        if chunk.Err? {
          return false, content;
        }
        storage.Append(final, chunk.value);
        ghost var rest := Assemble(created, id, chunks[i + 1..]);
        assert rest.Some? ==> content + (chunk.value + rest.value) == content + chunk.value + rest.value;
        content := content + chunk.value;
      }
      assert content + [] == content;
      return true, content;
    }

    method Complete(input: CompleteInput, now: int) returns (r: Result<Blob, Failure>)
      requires Wired()
      modifies repo.db, storage
      ensures MultipartModel.Complete(cfg, old(View()), input, now) == Reply(View(), r)
    {
      if input.finalHash == "" {
        return Err(MissingHash);
      }
      var id := input.uploadId;
      var session := repo.GetByID(id);
      if session.None? {
        return Err(InvalidUpload);
      }
      var upload := session.value;
      if upload.owner != input.userId {
        return Err(Unauthorized);
      }
      if upload.completed {
        return Err(AlreadyCompleted);
      }
      if upload.chunksDone == [] {
        return Err(NoChunks);
      }
      var chunks := Sort(upload.chunksDone);
      var final, error := storage.Create(CHUNK_BUCKET, FinalKey(id));
      if error.Some? {
        return Err(SaveFailed);
      }
      FinalLocation(id);
      ghost var created := storage.Model();
      var complete, content := CopyChunks(id, chunks);
      if !complete {
        DeleteIgnoresContent(created, id, content);
        var _ := storage.Delete(CHUNK_BUCKET, FinalKey(id));
        return Err(MissingChunk);
      }
      CreateThenWrite(old(storage.Model()), id, content);
      r := PromoteFinal(input, upload, content, now);
    }

    /** The part of Complete after assembly. */
    method PromoteFinal(input: CompleteInput, upload: Session, ghost content: Bytes,
        now: int) returns (r: Result<Blob, Failure>)
      requires Wired() && input.uploadId in repo.db.uploads
      requires FinalObject(input.uploadId) in storage.files && storage.files[FinalObject(input.uploadId)] == content
      modifies repo.db, storage
      ensures Promote(cfg, old(View()), input, upload, content, now) == Reply(View(), r)
    {
      var id := input.uploadId;
      FinalLocation(id);
      var reader := storage.Open(CHUNK_BUCKET, FinalKey(id));
      assert reader == Ok(content);
      var hash := cfg.sha(reader.value);
      if !EqualFold(hash, input.finalHash) {
        var _ := storage.Delete(CHUNK_BUCKET, FinalKey(id));
        return Err(HashMismatch);
      }
      var error := storage.Move(CHUNK_BUCKET, FinalKey(id), upload.bucket, id);
      if error.Some? {
        var _ := storage.Delete(CHUNK_BUCKET, FinalKey(id));
        return Err(MoveFailed);
      }
      var blob := Blob(upload.bucket, upload.filename, upload.size, hash, upload.bucket + "/" + id, None, now);
      var saved := blobs.repo.Create(id, blob);
      if !saved {
        return Err(MetadataFailed);
      }
      repo.MarkCompleted(id);
      var _ := storage.RemoveTree(CHUNK_BUCKET, id);
      return Ok(blob);
    }

    /** The cleanup loop; order is the order in which the stale sessions were listed. */
    method CleanupAbandoned(cutoff: int) returns (removed: nat, ghost order: seq<UUID>)
      modifies repo.db, storage
      ensures Lists(order, Stale(old(repo.db.uploads), cutoff))
      ensures Cleaned(View(), removed) == MultipartModel.CleanupAbandoned(Cleaned(old(View()), 0), order)
    {
      hide Trees.RemoveTree;
      var stale := repo.FindIncompleteOlderThan(cutoff);
      order := stale;
      removed := 0;
      for i := 0 to |stale|
        invariant MultipartModel.CleanupAbandoned(Cleaned(View(), removed), stale[i..])
               == MultipartModel.CleanupAbandoned(Cleaned(old(View()), 0), order)
      {
        assert stale[i..][0] == stale[i] && stale[i..][1..] == stale[i + 1..];
        var _ := storage.RemoveTree(CHUNK_BUCKET, stale[i]);
        repo.Delete(stale[i]);
        removed := removed + 1;
      }
    }
  }
}
