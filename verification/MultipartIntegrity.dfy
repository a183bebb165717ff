/** What the multipart operations do to the store, and that they keep its invariant. */
module MultipartIntegrity {
  import opened Wrappers
  import opened Text
  import opened Paths
  import opened Trees
  import opened Store
  import opened MultipartModel
  import opened Shapes
  import opened Integrity
  import References

  /** Storing a temporary object, whether the reader fails in the end or not. */
  lemma PutTemp(t: Tree, key: string, at: Path, content: Bytes, broken: bool := false)
    requires Shaped(t) && Locate(CHUNK_BUCKET, key) == Some(at) && ObjectShape(at) && IsTemp(at)
    ensures var done := Put(t, CHUNK_BUCKET, key, content, broken);
      && done.error == (if broken then Some(ReadFailed) else None) && Shaped(done.tree)
      && Blobs(done.tree) == Blobs(t) && Temps(done.tree) == Temps(t)[at := content]
      && SamePlaces(t, done.tree)
  {
    hide Locate, Write, ObjectShape, Shaped;
    TempFree(t, at);
    WriteTempPlaces(t, at, content);
    WriteShaped(t, at, content);
  }

  /** Deleting a temporary object. */
  lemma DeleteTemp(t: Tree, key: string, at: Path)
    requires Shaped(t) && Locate(CHUNK_BUCKET, key) == Some(at) && ObjectShape(at) && IsTemp(at)
    ensures var done := Delete(t, CHUNK_BUCKET, key);
      && done.error == None && Shaped(done.tree)
      && Blobs(done.tree) == Blobs(t) && Temps(done.tree) == Temps(t) - {at}
      && SamePlaces(t, done.tree)
  {
    hide Locate, Remove, ObjectShape, Shaped;
    TempFree(t, at);
    RemoveTempPlaces(t, at);
    RemoveShaped(t, at);
    assert Blobs(t) - {at} == Blobs(t);
  }

  /** A chunk is read, and measured, where it was stored. */
  lemma ReadChunk(t: Tree, id: UUID, index: int)
    requires Shaped(t)
    ensures var at := ChunkObject(id, index);
      && Open(t, CHUNK_BUCKET, ChunkKey(id, index)) == (if at in Temps(t) then Ok(Temps(t)[at]) else Err(NotExist))
      && Stat(t, CHUNK_BUCKET, ChunkKey(id, index)) == (if at in Temps(t) then Ok(|Temps(t)[at]|) else Err(NotExist))
      && ChunkSize(t, id, index) == (if at in Temps(t) then |Temps(t)[at]| else 0)
  {
    ChunkLocation(id, index);
    TempFree(t, ChunkObject(id, index));
  }

  /** A chunk that passes its checks is stored and recorded; one that fails them is gone, and
      with it whatever was stored under the index before. A body that breaks off is neither
      checked nor removed: what arrived takes the place of what was stored under the index, and
      the list of chunks stays as it was. */
  lemma UploadChunkOutcome(cfg: Config, s: State, input: ChunkInput)
    requires Shaped(s.tree) && input.uploadId in s.sessions
    requires s.sessions[input.uploadId].owner == input.userId && !s.sessions[input.uploadId].completed
    requires input.hash != ""
    ensures var r, upload := UploadChunk(cfg, s, input), s.sessions[input.uploadId];
      var at := ChunkObject(input.uploadId, input.index);
      var t := Put(s.tree, CHUNK_BUCKET, ChunkKey(input.uploadId, input.index), input.body).tree;
      var chunks := if input.index in upload.chunksDone then upload.chunksDone else upload.chunksDone + [input.index];
      && Shaped(r.state.tree) && Blobs(r.state.tree) == Blobs(s.tree) && r.state.rows == s.rows
      && Shaped(t) && Temps(t) == Temps(s.tree)[at := input.body]
      && (input.broken ==> r.result == Err(SaveFailed))
      && (r.result.Ok? <==> !input.broken && CheckChunk(cfg, t, upload, input).None?)
      && Temps(r.state.tree) == (if r.result.Ok? || input.broken then Temps(s.tree)[at := input.body]
                                 else Temps(s.tree) - {at})
      && r.state.sessions == (if r.result.Ok? then s.sessions[input.uploadId := upload.(chunksDone := chunks)]
                              else s.sessions)
      && SamePlaces(s.tree, r.state.tree)
  {
    hide Locate, ObjectShape, Shaped, Put, Delete, CheckChunk, Blobs, Temps;
    var key, at := ChunkKey(input.uploadId, input.index), ChunkObject(input.uploadId, input.index);
    ChunkLocation(input.uploadId, input.index);
    PutTemp(s.tree, key, at, input.body, input.broken);
    if !input.broken {
      var t := Put(s.tree, CHUNK_BUCKET, key, input.body).tree;
      DeleteTemp(t, key, at);
      PutThenDelete(Temps(s.tree), at, input.body);
    } else {
      PutTemp(s.tree, key, at, input.body);
    }
  }

  lemma PutThenDelete(m: map<Path, Bytes>, at: Path, content: Bytes)
    ensures m[at := content] - {at} == m - {at}
  {
  }

  lemma UploadChunkKeeps(cfg: Config, s: State, input: ChunkInput)
    requires Inv(cfg.sha, s)
    ensures Inv(cfg.sha, UploadChunk(cfg, s, input).state)
  {
    hide Shaped, Put, Delete, CheckChunk, Blobs, Temps, RowsCanonical, SessionsOk, References.InStep, Refs;
    var id := input.uploadId;
    if id in s.sessions && s.sessions[id].owner == input.userId && !s.sessions[id].completed && input.hash != "" {
      UploadChunkOutcome(cfg, s, input);
      SessionMarked(s.sessions, s.rows, Blobs(s.tree), id);
      SessionAdded(s.sessions, s.rows, Blobs(s.tree), id, UploadChunk(cfg, s, input).state.sessions[id]);
    }
  }

  lemma SessionAdded(sessions: Sessions, rows: Rows, blobs: map<Path, Bytes>, id: UUID, upload: Session)
    requires SessionsOk(sessions, rows, blobs) && PlainBucket(upload.bucket) && References.Unused(Refs(rows), blobs, id)
    ensures SessionsOk(sessions[id := upload], rows, blobs)
  {
    hide PlainBucket, References.Unused, Refs;
  }

  lemma InitiateKeeps(cfg: Config, s: State, input: InitiateInput, id: UUID, now: int)
    requires Inv(cfg.sha, s) && FreshId(s, id) && PlainBucket(input.bucket)
    ensures Inv(cfg.sha, Initiate(cfg, s, input, id, now).state)
  {
    hide Shaped, EnsureBucket, PlainBucket, RowsCanonical, References.InStep, SessionsOk, References.Unused, Refs,
      Temps, FreshId;
    FreshUnused(s, id);
    EnsureShaped(cfg.ensure, s.tree, CHUNK_BUCKET);
    var t := EnsureBucket(cfg.ensure, s.tree, CHUNK_BUCKET).tree;
    assert Blobs(t) == Blobs(s.tree);
    var upload := Session(input.userId, input.bucket, input.filename, input.size, [], false, now);
    SessionAdded(s.sessions, s.rows, Blobs(t), id, upload);
  }

  /** Initiate with an id that is taken changes nothing. */
  lemma InitiateTaken(cfg: Config, s: State, input: InitiateInput, id: UUID, now: int)
    requires id in s.sessions
    ensures Initiate(cfg, s, input, id, now) == Reply(s, Err(SessionFailed))
  {
  }

  // ---------- Complete ----------

  /** Assembly reads nothing but the chunks it lists. */
  lemma {:induction false} AssembleSame(t: Tree, u: Tree, id: UUID, chunks: seq<int>)
    requires Shaped(t) && Shaped(u)
    requires forall i :: i in chunks ==>
      (ChunkObject(id, i) in Temps(t) <==> ChunkObject(id, i) in Temps(u))
      && (ChunkObject(id, i) in Temps(t) ==> Temps(t)[ChunkObject(id, i)] == Temps(u)[ChunkObject(id, i)])
    ensures Assemble(t, id, chunks) == Assemble(u, id, chunks)
    decreases |chunks|
  {
    hide Shaped, Temps, Open, ChunkObject;
    if chunks != [] {
      assert chunks[0] in chunks;
      ReadChunk(t, id, chunks[0]);
      ReadChunk(u, id, chunks[0]);
      AssembleSame(t, u, id, chunks[1..]);
    }
  }

  /** The file being assembled is none of the chunks. */
  lemma AssembleBesideFinal(t: Tree, id: UUID, chunks: seq<int>, content: Bytes)
    requires Shaped(t)
    ensures var created := Put(t, CHUNK_BUCKET, FinalKey(id), content);
      && created.error == None && Shaped(created.tree) && Blobs(created.tree) == Blobs(t)
      && Temps(created.tree) == Temps(t)[FinalObject(id) := content]
      && Assemble(created.tree, id, chunks) == Assemble(t, id, chunks)
      && SamePlaces(t, created.tree)
  {
    hide Shaped, Temps, Blobs, Put, ChunkObject, FinalObject, Locate, ObjectShape;
    FinalLocation(id);
    PutTemp(t, FinalKey(id), FinalObject(id), content);
    forall i | i in chunks ensures ChunkObject(id, i) != FinalObject(id) {
      ChunksDistinct(id, i, i);
    }
    AssembleSame(t, Put(t, CHUNK_BUCKET, FinalKey(id), content).tree, id, chunks);
  }

  /** Promoting the assembled file: it leaves the temporary namespace, where the session's
      other objects are removed, and becomes the blob. The move fails, without a trace, exactly
      when something is in the way. */
  lemma PromoteTree(t: Tree, bucket: string, id: UUID)
    requires Shaped(t) && PlainBucket(bucket) && FinalObject(id) in Temps(t)
    ensures var moved := Move(t, CHUNK_BUCKET, FinalKey(id), bucket, id);
      var after := RemoveTree(moved.tree, CHUNK_BUCKET, id).tree;
      && (moved.error == None <==> Free(t, BlobObject(bucket, id)))
      && (moved.error.Some? ==> moved.tree == t)
      && (moved.error == None ==>
            && Shaped(after)
            && Blobs(after) == Blobs(t)[BlobObject(bucket, id) := Temps(t)[FinalObject(id)]]
            && Temps(after) == WithoutSession(Temps(t), id))
  {
    hide Locate, ObjectShape, Rename, BlobObject, Shaped, PlainBucket, RemoveTree, Free;
    FinalLocation(id);
    BlobObjectShape(bucket, id);
    var src, dst := FinalObject(id), BlobObject(bucket, id);
    RenameShaped(t, src, dst);
    if Free(t, dst) {
      var moved := Rename(t, src, dst).tree;
      RemoveSessionTree(moved, id);
      assert Blobs(moved) == Blobs(t)[dst := t.files[src]];
      assert src[1] == id;
      ShapedTemps(t);
    }
  }

  /** The temporary objects outside one session's directory. */
  function WithoutSession(temps: map<Path, Bytes>, id: UUID): map<Path, Bytes> {
    map f | f in temps && !(|f| > 1 && f[1] == id) :: temps[f]
  }

  lemma ShapedTemps(t: Tree)
    requires Shaped(t)
    ensures forall f :: f in Temps(t) ==> |f| == 3
  {
    hide IsUuid;
    forall f | f in Temps(t) ensures |f| == 3 {
      assert ObjectShape(f);
    }
  }

  /** A request Complete acts on. */
  predicate Completable(s: State, input: CompleteInput) {
    var id := input.uploadId;
    && input.finalHash != "" && id in s.sessions
    && s.sessions[id].owner == input.userId && !s.sessions[id].completed && s.sessions[id].chunksDone != []
  }

  /** What Complete does to an open session with recorded chunks: it fails without a trace
      outside the temporary namespace, or it stores exactly the assembled bytes. Besides a missing
      chunk and a wrong hash, what makes it fail is something in the way at the blob's place. */
  lemma CompleteOutcome(cfg: Config, s: State, input: CompleteInput, now: int)
    requires Inv(cfg.sha, s) && Completable(s, input)
    ensures var r, id, upload := Complete(cfg, s, input, now), input.uploadId, s.sessions[input.uploadId];
      var assembled, place := Assemble(s.tree, id, Sort(upload.chunksDone)), BlobObject(upload.bucket, id);
      && Shaped(r.state.tree)
      && (assembled.None? ==> r.result == Err(MissingChunk))
      && (assembled.Some? && !EqualFold(cfg.sha(assembled.value), input.finalHash) ==> r.result == Err(HashMismatch))
      && (assembled.Some? && EqualFold(cfg.sha(assembled.value), input.finalHash) && !Free(s.tree, place) ==>
            r.result == Err(MoveFailed))
      && (assembled.Some? && EqualFold(cfg.sha(assembled.value), input.finalHash) && Free(s.tree, place) ==>
            && r.result == Ok(Blob(upload.bucket, upload.filename, upload.size, cfg.sha(assembled.value),
                                   upload.bucket + "/" + id, None, now))
            && r.state.rows == s.rows[id := r.result.value]
            && r.state.sessions == s.sessions[id := upload.(completed := true)]
            && Blobs(r.state.tree) == Blobs(s.tree)[place := assembled.value]
            && Temps(r.state.tree) == WithoutSession(Temps(s.tree), id))
      && (r.result.Err? ==> r.state == s.(tree := r.state.tree))
      && (r.result.Err? ==> Blobs(r.state.tree) == Blobs(s.tree))
      && (r.result.Err? ==> Temps(r.state.tree) == Temps(s.tree) - {FinalObject(id)})
  {
    hide Locate, ObjectShape, Shaped, Put, Delete, Move, RemoveTree, Blobs, Temps, Assemble, PlainBucket, FinalObject,
      WithoutSession, SamePlaces, Free, RowsCanonical, References.InStep, IsTemp, BlobObject;
    var id, upload := input.uploadId, s.sessions[input.uploadId];
    var final := FinalObject(id);
    FinalLocation(id);
    AssembleBesideFinal(s.tree, id, Sort(upload.chunksDone), []);
    var t0 := Put(s.tree, CHUNK_BUCKET, FinalKey(id), []).tree;
    var assembled := Assemble(s.tree, id, Sort(upload.chunksDone));
    DeleteTemp(t0, FinalKey(id), final);
    PutThenDelete(Temps(s.tree), final, []);
    if assembled.Some? {
      PutTemp(t0, FinalKey(id), final, assembled.value);
      var t1 := Put(t0, CHUNK_BUCKET, FinalKey(id), assembled.value).tree;
      DeleteTemp(t1, FinalKey(id), final);
      PutTwice(Temps(s.tree), final, [], assembled.value);
      PutThenDelete(Temps(s.tree), final, assembled.value);
      SamePlacesTwice(s.tree, t0, t1);
      BlobObjectShape(upload.bucket, id);
      PlacesFree(s.tree, t1, BlobObject(upload.bucket, id));
      PromoteTree(t1, upload.bucket, id);
      WithoutFinal(Temps(s.tree), id, assembled.value);
      assert References.Unused(Refs(s.rows), Blobs(s.tree), id);
    }
  }

  lemma SamePlacesTwice(t: Tree, u: Tree, v: Tree)
    requires SamePlaces(t, u) && SamePlaces(u, v)
    ensures SamePlaces(t, v)
  {
  }

  lemma PutTwice(m: map<Path, Bytes>, at: Path, a: Bytes, b: Bytes)
    ensures m[at := a][at := b] == m[at := b]
  {
  }

  lemma WithoutFinal(temps: map<Path, Bytes>, id: UUID, content: Bytes)
    ensures WithoutSession(temps[FinalObject(id) := content], id) == WithoutSession(temps, id)
  {
    assert FinalObject(id)[1] == id;
  }

  lemma SessionMarked(sessions: Sessions, rows: Rows, blobs: map<Path, Bytes>, id: UUID)
    requires SessionsOk(sessions, rows, blobs) && id in sessions && !sessions[id].completed
    ensures PlainBucket(sessions[id].bucket) && References.Unused(Refs(rows), blobs, id)
    ensures SessionsOk(sessions[id := sessions[id].(completed := true)], rows, blobs)
  {
    hide PlainBucket, References.Unused, Refs;
  }

  /** A row for an open session, with its own object, and the session marked. */
  lemma CompletedKeeps(sha: Bytes -> string, s: State, s': State, id: UUID, row: Blob, content: Bytes)
    requires Inv(sha, s) && id in s.sessions && !s.sessions[id].completed
    requires row.bucket == s.sessions[id].bucket && row.path == row.bucket + "/" + id && row.hash == sha(content)
    requires s'.rows == s.rows[id := row] && s'.sessions == s.sessions[id := s.sessions[id].(completed := true)]
    requires Shaped(s'.tree) && Blobs(s'.tree) == Blobs(s.tree)[BlobObject(row.bucket, id) := content]
    ensures Inv(sha, s')
  {
    hide Shaped, Blobs, PlainBucket, Home, BlobObject, RowCanonical, RowsCanonical, SessionsOk, References.InStep,
      References.Unused, Refs;
    SessionMarked(s.sessions, s.rows, Blobs(s.tree), id);
    OwnShape(row, id);
    HomeOfOwn(row, id);
    BlobObjectShape(row.bucket, id);
    AddOwnRow(sha, s, s', id, row, content, {});
  }

  /** Complete keeps the invariant: a failed run changes no row and no blob, a successful one
      adds a row whose object holds the assembled bytes. */
  lemma CompleteKeeps(cfg: Config, s: State, input: CompleteInput, now: int)
    requires Inv(cfg.sha, s)
    ensures Inv(cfg.sha, Complete(cfg, s, input, now).state)
  {
    hide InvExcept, Complete, Blobs, Temps, Assemble, BlobObject, Sort, EqualFold, Shaped;
    if Completable(s, input) {
      var id := input.uploadId;
      CompleteOutcome(cfg, s, input, now);
      var r := Complete(cfg, s, input, now);
      if r.result.Ok? {
        CompletedKeeps(cfg.sha, s, r.state, id, r.result.value,
          Assemble(s.tree, id, Sort(s.sessions[id].chunksDone)).value);
      } else {
        SameBlobs(cfg.sha, s, r.state.tree, {});
      }
    } else {
      CompleteRefused(cfg, s, input, now);
    }
  }

  /** Complete turns a request away without a trace unless the session is open, the caller's
      own and not empty. */
  lemma CompleteRefused(cfg: Config, s: State, input: CompleteInput, now: int)
    requires !Completable(s, input)
    ensures Complete(cfg, s, input, now).state == s && Complete(cfg, s, input, now).result.Err?
  {
    hide Promote, Assemble, Put, Delete;
  }

  /** A session whose id is a row already, in any state, is never completed: rows and sessions stay
      as they are. */
  lemma CompleteTaken(cfg: Config, s: State, input: CompleteInput, now: int)
    requires input.uploadId in s.rows
    ensures var r := Complete(cfg, s, input, now);
      r.result.Err? && r.state.rows == s.rows && r.state.sessions == s.sessions
  {
    hide Put, Delete, Move, Assemble, Sort, EqualFold, FinalKey;
  }

  /** Why buckets must stay out of the chunk namespace: a session for the bucket `tmp` is never
      completed, whatever it uploads, since the blob's place is the directory of its chunks. */
  lemma TempBucketNeverCompletes(cfg: Config, s: State, input: CompleteInput, now: int)
    requires input.uploadId in s.sessions && s.sessions[input.uploadId].bucket == CHUNK_BUCKET
    ensures var r := Complete(cfg, s, input, now);
      r.result.Err? && r.state.rows == s.rows && r.state.sessions == s.sessions
  {
    hide Locate, Assemble, Sort, EqualFold, ObjectShape, IsTemp, PruneParents, FinalKey, Remove;
    var id := input.uploadId;
    FinalLocation(id);
    SessionLocation(id);
    assert [CHUNK_BUCKET, id] < FinalObject(id);
  }

  // ---------- CleanupAbandoned ----------

  function WithoutSessions(temps: map<Path, Bytes>, ids: set<UUID>): map<Path, Bytes> {
    map f | f in temps && !(|f| > 1 && f[1] in ids) :: temps[f]
  }

  /** Cleanup over a list of distinct sessions: those sessions and their temporary objects go,
      every other session, temporary object, row and blob stays as it is, and the count is
      the number of sessions. */
  lemma {:induction false} CleanupOutcome(c: Cleaned, order: seq<UUID>)
    requires Shaped(c.state.tree)
    ensures var r := CleanupAbandoned(c, order);
      && r.removed == c.removed + |order|
      && Shaped(r.state.tree) && Blobs(r.state.tree) == Blobs(c.state.tree)
      && Temps(r.state.tree) == WithoutSessions(Temps(c.state.tree), Ids(order))
      && r.state.sessions == c.state.sessions - Ids(order)
      && r.state.rows == c.state.rows
    decreases |order|
  {
    hide Shaped, RemoveTree, Blobs, Temps;
    if order == [] {
      assert WithoutSessions(Temps(c.state.tree), {}) == Temps(c.state.tree);
    } else {
      var t := RemoveTree(c.state.tree, CHUNK_BUCKET, order[0]).tree;
      RemoveSessionTree(c.state.tree, order[0]);
      SessionTreeTemps(c.state.tree, order[0]);
      var next := Cleaned(c.state.(sessions := c.state.sessions - {order[0]}, tree := t), c.removed + 1);
      CleanupOutcome(next, order[1..]);
      assert Ids(order) == {order[0]} + Ids(order[1..]);
      assert WithoutSessions(WithoutSession(Temps(c.state.tree), order[0]), Ids(order[1..]))
          == WithoutSessions(Temps(c.state.tree), Ids(order));
    }
  }

  lemma SessionTreeTemps(t: Tree, id: UUID)
    requires Shaped(t)
    ensures Temps(RemoveTree(t, CHUNK_BUCKET, id).tree) == WithoutSession(Temps(t), id)
  {
    hide RemoveTree;
    RemoveSessionTree(t, id);
    ShapedTemps(t);
  }

  /** A temporary object lies in this session's directory. */
  predicate BelongsTo(f: Path, id: UUID) {
    |f| > 1 && f[1] == id
  }

  /** CleanupAbandoned removes exactly the sessions that are open and were opened before the
      cutoff, each with its temporary objects, and says how many; it touches nothing else. */
  lemma CleanupExact(s: State, cutoff: int, order: seq<UUID>)
    requires Shaped(s.tree) && Lists(order, Stale(s.sessions, cutoff))
    ensures var r := CleanupAbandoned(Cleaned(s, 0), order);
      && (forall id :: id in s.sessions ==>
            (id in r.state.sessions <==> s.sessions[id].completed || cutoff <= s.sessions[id].createdAt))
      && (forall id :: id in r.state.sessions ==> id in s.sessions && r.state.sessions[id] == s.sessions[id])
      && r.removed + |r.state.sessions| == |s.sessions|
      && (forall f, id :: f in Temps(s.tree) && id in s.sessions && BelongsTo(f, id) ==>
            (f in Temps(r.state.tree) <==> s.sessions[id].completed || cutoff <= s.sessions[id].createdAt))
      && (forall f :: f in Temps(s.tree) && (forall id :: id in s.sessions ==> !BelongsTo(f, id)) ==>
            f in Temps(r.state.tree))
      && (forall f :: f in Temps(r.state.tree) ==> f in Temps(s.tree) && Temps(r.state.tree)[f] == Temps(s.tree)[f])
      && r.state.sessions == s.sessions - Stale(s.sessions, cutoff)
      && Temps(r.state.tree) == WithoutSessions(Temps(s.tree), Stale(s.sessions, cutoff))
      && Blobs(r.state.tree) == Blobs(s.tree) && r.state.rows == s.rows
  {
    hide Shaped, Blobs, Temps, CleanupAbandoned;
    CleanupOutcome(Cleaned(s, 0), order);
    assert Ids(order) == Stale(s.sessions, cutoff);
    DistinctCount(order);
    SessionsLeft(s.sessions, Stale(s.sessions, cutoff));
  }

  lemma SessionsLeft(sessions: Sessions, gone: set<UUID>)
    requires gone <= sessions.Keys
    ensures |sessions - gone| + |gone| == |sessions|
  {
    assert (sessions - gone).Keys == sessions.Keys - gone;
    assert |(sessions - gone).Keys| == |sessions - gone| && |sessions.Keys| == |sessions|;
  }

  lemma CleanupKeeps(sha: Bytes -> string, s: State, order: seq<UUID>)
    requires Inv(sha, s)
    ensures Inv(sha, CleanupAbandoned(Cleaned(s, 0), order).state)
  {
    hide Shaped, Blobs, Temps;
    CleanupOutcome(Cleaned(s, 0), order);
  }
}
