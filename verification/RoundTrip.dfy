/** Split and assemble: uploading the pieces of a file and completing gives back the file. */
module RoundTrip {
  import opened Wrappers
  import opened Text
  import opened Paths
  import opened Trees
  import opened Store
  import opened BlobModel
  import opened MultipartModel
  import opened Shapes
  import opened Integrity
  import opened MultipartIntegrity
  import opened UploadCap
  import opened Assembly
  import opened Runs
  import References

  /** Contents whose printed hashes agree, letter case aside, are equal. */
  ghost predicate CollisionFree(sha: Bytes -> string) {
    forall x, y :: EqualFold(sha(x), sha(y)) ==> x == y
  }

  /** A file cut into pieces that respect the limits. */
  ghost predicate WellCut(cfg: Config, pieces: seq<Bytes>) {
    && pieces != []
    && (forall i :: 0 <= i < |pieces| ==>
          (cfg.minChunk > 0 ==> |pieces[i]| >= cfg.minChunk) && (cfg.maxChunk > 0 ==> |pieces[i]| <= cfg.maxChunk))
    && (cfg.maxUpload > 0 ==> |Concat(pieces)| <= cfg.maxUpload)
  }

  /** A chunk request of this session whose header is the hash of the true piece. Its body may be
      anything and may break off anywhere; under a cap, one that breaks off is no longer than the
      true piece. */
  ghost predicate TrueHeader(cfg: Config, id: UUID, owner: UUID, pieces: seq<Bytes>, call: ChunkInput) {
    && call.uploadId == id && call.userId == owner
    && 0 <= call.index < |pieces|
    && call.hash != "" && EqualFold(cfg.sha(pieces[call.index]), call.hash)
    && (call.broken && cfg.maxUpload > 0 ==> |call.body| <= |pieces[call.index]|)
  }

  /** What a request carries: the true piece, in full. */
  predicate Right(call: ChunkInput, piece: Bytes) {
    !call.broken && call.body == piece
  }

  /** One chunk request after the other. */
  function UploadAll(cfg: Config, s: State, calls: seq<ChunkInput>): State
    decreases |calls|
  {
    if calls == [] then s
    else UploadChunk(cfg, UploadAll(cfg, s, calls[..|calls| - 1]), calls[|calls| - 1]).state
  }

  /** The last request for an index. */
  function LastCall(calls: seq<ChunkInput>, index: int): Option<ChunkInput>
    decreases |calls|
  {
    if calls == [] then None
    else if calls[|calls| - 1].index == index then Some(calls[|calls| - 1])
    else LastCall(calls[..|calls| - 1], index)
  }

  /** A session in progress: what is stored for a piece is the body of its last request, if that
      was right or broke off, and the pieces whose last request was right are all recorded. */
  ghost predicate InProgress(cfg: Config, s: State, id: UUID, owner: UUID, bucket: string, pieces: seq<Bytes>,
      calls: seq<ChunkInput>) {
    && id in s.sessions && s.sessions[id].owner == owner && s.sessions[id].bucket == bucket && !s.sessions[id].completed
    && Distinct(s.sessions[id].chunksDone)
    && (forall i :: i in s.sessions[id].chunksDone ==> 0 <= i < |pieces|)
    && (forall i :: 0 <= i < |pieces| ==> PieceState(cfg, s, id, i, pieces[i], LastCall(calls, i)))
  }

  ghost predicate PieceState(cfg: Config, s: State, id: UUID, i: int, piece: Bytes, last: Option<ChunkInput>)
    requires id in s.sessions
  {
    var at := ChunkObject(id, i);
    && (at in Temps(s.tree) <==> last.Some? && (last.value.broken || last.value.body == piece))
    && (at in Temps(s.tree) ==> Temps(s.tree)[at] == last.value.body)
    && (cfg.maxUpload > 0 ==> SizeOf(Temps(s.tree), id, i) <= |piece|)
    && (last.Some? && Right(last.value, piece) ==> i in s.sessions[id].chunksDone)
  }

  // ---------- weights ----------

  lemma {:induction false} ConcatSnoc(parts: seq<Bytes>, last: Bytes)
    ensures |Concat(parts + [last])| == |Concat(parts)| + |last|
    decreases |parts|
  {
    if parts == [] {
      assert parts + [last] == [last];
      assert Concat([last]) == last + Concat([]);
    } else {
      assert (parts + [last])[1..] == parts[1..] + [last];
      ConcatSnoc(parts[1..], last);
    }
  }

  lemma {:induction false} StoredWithout(temps: Chunks, id: UUID, chunks: seq<int>, k: nat)
    requires k < |chunks|
    ensures Stored(temps, id, chunks) == SizeOf(temps, id, chunks[k]) + Stored(temps, id, chunks[..k] + chunks[k + 1..])
    decreases k
  {
    hide SizeOf;
    var rest := chunks[..k] + chunks[k + 1..];
    if k == 0 {
      assert rest == chunks[1..];
    } else {
      assert rest[1..] == chunks[1..][..k - 1] + chunks[1..][k..];
      StoredWithout(temps, id, chunks[1..], k - 1);
    }
  }

  /** Distinct recorded chunks take no more than the pieces they stand for. */
  lemma {:induction false} StoredBound(temps: Chunks, id: UUID, chunks: seq<int>, pieces: seq<Bytes>)
    requires Distinct(chunks)
    requires forall k :: 0 <= k < |chunks| ==>
      0 <= chunks[k] < |pieces| && SizeOf(temps, id, chunks[k]) <= |pieces[chunks[k]]|
    ensures Stored(temps, id, chunks) <= |Concat(pieces)|
    decreases |pieces|
  {
    hide SizeOf;
    if pieces == [] {
      if chunks != [] {
        assert false;
      }
    } else {
      var n := |pieces| - 1;
      assert pieces == pieces[..n] + [pieces[n]];
      ConcatSnoc(pieces[..n], pieces[n]);
      if n in chunks {
        var k :| 0 <= k < |chunks| && chunks[k] == n;
        StoredWithout(temps, id, chunks, k);
        var rest := chunks[..k] + chunks[k + 1..];
        RestDistinct(chunks, k);
        StoredBound(temps, id, rest, pieces[..n]);
      } else {
        StoredBound(temps, id, chunks, pieces[..n]);
      }
    }
  }

  lemma RestDistinct(chunks: seq<int>, k: nat)
    requires Distinct(chunks) && k < |chunks|
    ensures var rest := chunks[..k] + chunks[k + 1..];
      Distinct(rest) && forall i :: i in rest ==> i in chunks && i != chunks[k]
  {
    var rest := chunks[..k] + chunks[k + 1..];
    assert forall j :: 0 <= j < |rest| ==> rest[j] == if j < k then chunks[j] else chunks[j + 1];
  }

  // ---------- the run of requests ----------

  /** A request with the right body passes every check. */
  lemma RightChunkPasses(cfg: Config, s: State, t: Tree, id: UUID, owner: UUID, pieces: seq<Bytes>,
      calls: seq<ChunkInput>, call: ChunkInput, bucket: string)
    requires CollisionFree(cfg.sha) && WellCut(cfg, pieces) && TrueHeader(cfg, id, owner, pieces, call)
    requires InProgress(cfg, s, id, owner, bucket, pieces, calls) && Shaped(t)
    requires Right(call, pieces[call.index]) && Temps(t) == Temps(s.tree)[ChunkObject(id, call.index) := call.body]
    ensures CheckChunk(cfg, t, s.sessions[id], call).None?
  {
    hide Shaped, Temps, Stat, ChunkObject, EqualFold;
    var chunks := s.sessions[id].chunksDone;
    ReadChunk(t, id, call.index);
    ExceptIsRest(t, id, chunks, call.index);
    StoredAppend(Temps(t), id, chunks, call.index);
    if cfg.maxUpload > 0 {
      PiecesBound(cfg, s, t, id, owner, pieces, calls, call, bucket);
    }
  }

  /** Under a cap the recorded chunks take no more than the file. */
  lemma PiecesBound(cfg: Config, s: State, t: Tree, id: UUID, owner: UUID, pieces: seq<Bytes>,
      calls: seq<ChunkInput>, call: ChunkInput, bucket: string)
    requires cfg.maxUpload > 0 && InProgress(cfg, s, id, owner, bucket, pieces, calls)
    requires 0 <= call.index < |pieces| && Right(call, pieces[call.index])
    requires Temps(t) == Temps(s.tree)[ChunkObject(id, call.index) := call.body]
    ensures Stored(Temps(t), id, WithIndex(s.sessions[id].chunksDone, call.index)) <= |Concat(pieces)|
  {
    hide Temps, ChunkObject;
    var all := WithIndex(s.sessions[id].chunksDone, call.index);
    forall i | i in all ensures 0 <= i < |pieces| && SizeOf(Temps(t), id, i) <= |pieces[i]| {
      if i != call.index {
        ChunksDistinct(id, i, call.index);
        assert PieceState(cfg, s, id, i, pieces[i], LastCall(calls, i));
      }
    }
    assert forall k :: 0 <= k < |all| ==> all[k] in all;
    StoredBound(Temps(t), id, all, pieces);
  }

  /** A full request with any other body fails the hash check. */
  lemma WrongChunkFails(cfg: Config, t: Tree, upload: Session, id: UUID, owner: UUID, pieces: seq<Bytes>,
      call: ChunkInput)
    requires CollisionFree(cfg.sha) && TrueHeader(cfg, id, owner, pieces, call)
    requires call.body != pieces[call.index]
    ensures CheckChunk(cfg, t, upload, call).Some?
  {
    hide Stat;
    assert !EqualFold(cfg.sha(call.body), cfg.sha(pieces[call.index]));
  }

  lemma OneRequest(cfg: Config, s: State, id: UUID, owner: UUID, bucket: string, pieces: seq<Bytes>,
      calls: seq<ChunkInput>, call: ChunkInput)
    requires CollisionFree(cfg.sha) && WellCut(cfg, pieces) && TrueHeader(cfg, id, owner, pieces, call)
    requires Inv(cfg.sha, s) && InProgress(cfg, s, id, owner, bucket, pieces, calls)
    ensures var r := UploadChunk(cfg, s, call);
      InProgress(cfg, r.state, id, owner, bucket, pieces, calls + [call])
      && (r.result.Ok? <==> Right(call, pieces[call.index]))
  {
    hide Shaped, Temps, Blobs, ChunkObject, CheckChunk, UploadChunk, EqualFold, Put, RowsCanonical, SessionsOk,
      WellCut;
    UploadChunkOutcome(cfg, s, call);
    var r := UploadChunk(cfg, s, call);
    var t := Put(s.tree, CHUNK_BUCKET, ChunkKey(id, call.index), call.body).tree;
    if call.broken {
    } else if call.body == pieces[call.index] {
      RightChunkPasses(cfg, s, t, id, owner, pieces, calls, call, bucket);
    } else {
      WrongChunkFails(cfg, t, s.sessions[id], id, owner, pieces, call);
    }
    assert (calls + [call])[..|calls|] == calls;
    forall i | 0 <= i < |pieces| ensures PieceState(cfg, r.state, id, i, pieces[i], LastCall(calls + [call], i)) {
      assert PieceState(cfg, s, id, i, pieces[i], LastCall(calls, i));
      ChunksDistinct(id, i, call.index);
    }
  }

  lemma {:induction false} AllRequests(cfg: Config, s: State, id: UUID, owner: UUID, bucket: string,
      pieces: seq<Bytes>, calls: seq<ChunkInput>)
    requires CollisionFree(cfg.sha) && WellCut(cfg, pieces)
    requires forall k :: 0 <= k < |calls| ==> TrueHeader(cfg, id, owner, pieces, calls[k])
    requires Inv(cfg.sha, s) && InProgress(cfg, s, id, owner, bucket, pieces, [])
    ensures Inv(cfg.sha, UploadAll(cfg, s, calls))
    ensures InProgress(cfg, UploadAll(cfg, s, calls), id, owner, bucket, pieces, calls)
    decreases |calls|
  {
    hide Inv, InProgress, UploadChunk, TrueHeader, WellCut, CollisionFree;
    if calls != [] {
      var before, call := calls[..|calls| - 1], calls[|calls| - 1];
      AllRequests(cfg, s, id, owner, bucket, pieces, before);
      var mid := UploadAll(cfg, s, before);
      OneRequest(cfg, mid, id, owner, bucket, pieces, before, call);
      UploadChunkKeeps(cfg, mid, call);
      assert before + [call] == calls;
    }
  }

  /** Chunk requests change nothing outside the temporary namespace. */
  lemma {:induction false} RequestsStayInside(cfg: Config, s: State, calls: seq<ChunkInput>)
    requires Shaped(s.tree)
    ensures var t := UploadAll(cfg, s, calls).tree; Shaped(t) && Blobs(t) == Blobs(s.tree) && SamePlaces(s.tree, t)
    decreases |calls|
  {
    hide Shaped, Blobs, Temps, UploadChunk;
    if calls != [] {
      var before, call := calls[..|calls| - 1], calls[|calls| - 1];
      RequestsStayInside(cfg, s, before);
      OneStaysInside(cfg, UploadAll(cfg, s, before), call);
    }
  }

  lemma OneStaysInside(cfg: Config, s: State, call: ChunkInput)
    requires Shaped(s.tree)
    ensures var t := UploadChunk(cfg, s, call).state.tree;
      Shaped(t) && Blobs(t) == Blobs(s.tree) && SamePlaces(s.tree, t)
  {
    hide Shaped, Blobs, Temps, Put, Delete, CheckChunk, SamePlaces;
    var id := call.uploadId;
    PlacesReflexive(s.tree);
    if id in s.sessions && s.sessions[id].owner == call.userId && !s.sessions[id].completed && call.hash != "" {
      UploadChunkOutcome(cfg, s, call);
    }
  }

  lemma PlacesReflexive(t: Tree)
    ensures SamePlaces(t, t)
  {
  }

  /** When every piece is stored, Complete assembles the file. */
  lemma PiecesAssemble(cfg: Config, s: State, id: UUID, owner: UUID, bucket: string, pieces: seq<Bytes>,
    calls: seq<ChunkInput>)
    requires Shaped(s.tree) && InProgress(cfg, s, id, owner, bucket, pieces, calls)
    requires forall i :: 0 <= i < |pieces| ==> LastCall(calls, i).Some? && Right(LastCall(calls, i).value, pieces[i])
    ensures Sort(s.sessions[id].chunksDone) == Range(|pieces|)
    ensures Assemble(s.tree, id, Range(|pieces|)) == Some(Concat(pieces))
  {
    hide Shaped, Temps, ChunkObject, LastCall, Assemble;
    var done := s.sessions[id].chunksDone;
    forall i | 0 <= i < |pieces|
      ensures i in done && ChunkObject(id, i) in Temps(s.tree) && Temps(s.tree)[ChunkObject(id, i)] == pieces[i]
    {
      assert PieceState(cfg, s, id, i, pieces[i], LastCall(calls, i));
    }
    SortRange(done, |pieces|);
    AssembleConcat(s.tree, id, Range(|pieces|));
    assert ChunkBytes(Temps(s.tree), id, Range(|pieces|)) == pieces;
  }

  /** For any file cut into pieces that respect the limits, any order of chunk requests with
      any retries, wrong and broken bodies included, as long as the last request for each piece
      carries the right bytes in full: Complete with the file's hash succeeds, stores exactly the file, and
      OpenFile streams it, if and only if nothing is in the way at the blob's place. */
  lemma SplitAssembleRoundTrip(cfg: Config, s: State, id: UUID, pieces: seq<Bytes>, calls: seq<ChunkInput>,
      finalHash: string, now: int)
    requires CollisionFree(cfg.sha) && WellCut(cfg, pieces)
    requires Inv(cfg.sha, s) && id in s.sessions && !s.sessions[id].completed && s.sessions[id].chunksDone == []
    requires forall f :: f in s.tree.files && IsTemp(f) && |f| > 1 ==> f[1] != id
    requires forall k :: 0 <= k < |calls| ==> TrueHeader(cfg, id, s.sessions[id].owner, pieces, calls[k])
    requires forall i :: 0 <= i < |pieces| ==> LastCall(calls, i).Some? && Right(LastCall(calls, i).value, pieces[i])
    requires finalHash != "" && EqualFold(cfg.sha(Concat(pieces)), finalHash)
    ensures var r := Complete(cfg, UploadAll(cfg, s, calls), CompleteInput(id, s.sessions[id].owner, finalHash), now);
      && (r.result.Ok? <==> Free(s.tree, BlobObject(s.sessions[id].bucket, id)))
      && (r.result.Err? ==> r.result == Err(MoveFailed))
      && (r.result.Ok? ==>
            && id in r.state.rows && r.result.value == r.state.rows[id]
            && OpenFile(r.state, id) == Ok((r.result.value, Concat(pieces), |Concat(pieces)|)))
  {
    hide Shaped, Temps, Blobs, ChunkObject, CollisionFree, UploadAll, Complete, TrueHeader, RowsCanonical, SessionsOk,
      OpenFile, Concat, EqualFold, BlobObject, Assemble, Sort, Free, SamePlaces, IsTemp, References.InStep,
      PlainBucket;
    var owner, bucket := s.sessions[id].owner, s.sessions[id].bucket;
    FreshSession(cfg, s, id, pieces);
    AllRequests(cfg, s, id, owner, bucket, pieces, calls);
    RequestsStayInside(cfg, s, calls);
    var mid := UploadAll(cfg, s, calls);
    PiecesAssemble(cfg, mid, id, owner, bucket, pieces, calls);
    SomethingRecorded(mid, id, |pieces|);
    var input := CompleteInput(id, owner, finalHash);
    SessionBucket(cfg.sha, s, id);
    BlobObjectShape(bucket, id);
    PlacesFree(s.tree, mid.tree, BlobObject(bucket, id));
    CompleteOutcome(cfg, mid, input, now);
    CompleteKeeps(cfg, mid, input, now);
    var r := Complete(cfg, mid, input, now);
    if r.result.Ok? {
      OpenRow(cfg.sha, r.state, id);
      HomeOfOwn(r.result.value, id);
    }
  }

  lemma SessionBucket(sha: Bytes -> string, s: State, id: UUID)
    requires Inv(sha, s) && id in s.sessions
    ensures PlainBucket(s.sessions[id].bucket)
  {
    hide Shaped, RowsCanonical, Blobs, PlainBucket, Refs;
  }

  lemma SomethingRecorded(s: State, id: UUID, n: nat)
    requires id in s.sessions && n > 0 && Sort(s.sessions[id].chunksDone) == Range(n)
    ensures s.sessions[id].chunksDone != []
  {
  }

  /** A session nothing was stored for yet. */
  lemma FreshSession(cfg: Config, s: State, id: UUID, pieces: seq<Bytes>)
    requires id in s.sessions && !s.sessions[id].completed && s.sessions[id].chunksDone == []
    requires forall f :: f in s.tree.files && IsTemp(f) && |f| > 1 ==> f[1] != id
    ensures InProgress(cfg, s, id, s.sessions[id].owner, s.sessions[id].bucket, pieces, [])
  {
    forall i | 0 <= i < |pieces| ensures PieceState(cfg, s, id, i, pieces[i], None) {
      assert ChunkObject(id, i)[1] == id;
    }
  }

  /** Initiate with a fresh id opens such a session, as asked for, and touches nothing else. The
      blob's place is free then unless the bucket runs through an object. */
  lemma InitiateOpensFresh(cfg: Config, s: State, input: InitiateInput, id: UUID, now: int)
    requires Inv(cfg.sha, s) && FreshId(s, id) && PlainBucket(input.bucket) && cfg.ensure == AsPromised
    ensures var r := Initiate(cfg, s, input, id, now);
      && r.result == Ok(id) && Inv(cfg.sha, r.state)
      && r.state.sessions
        == s.sessions[id := Session(input.userId, input.bucket, input.filename, input.size, [], false, now)]
      && r.state.rows == s.rows && r.state.tree.files == s.tree.files
      && (forall f :: f in r.state.tree.files && IsTemp(f) && |f| > 1 ==> f[1] != id)
      && (Free(r.state.tree, BlobObject(input.bucket, id)) <==> !Blocked(s.tree, input.bucket))
  {
    hide Shaped, PlainBucket, EnsureBucket, RowsCanonical, SessionsOk, Blobs, Refs, References.InStep, Blocked;
    InitiateKeeps(cfg, s, input, id, now);
    EnsureShaped(cfg.ensure, s.tree, CHUNK_BUCKET);
    ChunkNamespaceOpen(s.tree);
    BucketSegments(CHUNK_BUCKET);
    var t := EnsureBucket(cfg.ensure, s.tree, CHUNK_BUCKET).tree;
    WayToObject(t, input.bucket, id);
    SameBlocked(s.tree, t, input.bucket);
    BucketSegments(input.bucket);
    assert id in BlobObject(input.bucket, id) && |BlobObject(input.bucket, id)| > 1;
    forall f | f in t.files && IsTemp(f) && |f| > 1 ensures f[1] != id {
      assert id !in f;
    }
  }

  lemma SameBlocked(t: Tree, u: Tree, bucket: string)
    requires t.files.Keys == u.files.Keys
    ensures Blocked(t, bucket) <==> Blocked(u, bucket)
  {
    assert forall f :: f in t.files <==> f in u.files;
  }
}
