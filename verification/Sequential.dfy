/** The sequential operations on sessions, as runs of the interleaving model in which nothing
    else happens. */
module Sequential {
  import opened Wrappers
  import opened Text
  import opened Paths
  import opened Trees
  import opened Store
  import opened MultipartModel
  import opened Shapes
  import opened Integrity
  import opened MultipartIntegrity
  import opened UploadCap
  import opened Assembly
  import opened Interleaving
  import References

  /** The same objects, sessions and rows; the interleaving model has no directories. */
  ghost predicate Matches(sys: Sys, s: State) {
    sys.files == s.tree.files && sys.sessions == s.sessions && sys.rows == s.rows
  }

  /** Nothing but objects, sessions, rows and promises differs. */
  ghost predicate SameTasks(a: Sys, b: Sys) {
    a.chunks == b.chunks && a.completes == b.completes
  }

  lemma FilesFromBoth(t: Tree, blobs: map<Path, Bytes>, temps: map<Path, Bytes>)
    requires Blobs(t) == blobs && Temps(t) == temps
    ensures t.files == blobs + temps
  {
    forall f | f in t.files ensures f in blobs + temps && (blobs + temps)[f] == t.files[f] {
      assert f in Blobs(t) || f in Temps(t);
    }
    forall f | f in blobs + temps ensures f in t.files {
      assert f in Blobs(t) || f in Temps(t);
    }
  }

  /** Objects of two trees whose blobs agree and whose temporary objects differ in one place. */
  lemma TempPut(t: Tree, u: Tree, at: Path, content: Bytes)
    requires IsTemp(at) && Blobs(u) == Blobs(t)
    ensures Temps(u) == Temps(t)[at := content] ==> u.files == t.files[at := content]
    ensures Temps(u) == Temps(t) - {at} ==> u.files == t.files - {at}
  {
    FilesFromBoth(t, Blobs(t), Temps(t));
    FilesFromBoth(u, Blobs(u), Temps(u));
    assert at !in Blobs(t);
    assert (Blobs(t) + Temps(t))[at := content] == Blobs(t) + Temps(t)[at := content];
    assert Blobs(t) + Temps(t) - {at} == Blobs(t) + (Temps(t) - {at});
  }

  // ---------- chunk requests ----------

  /** A request in flight after its bytes are written. */
  lemma Written(sha: Bytes -> string, sys: Sys, r: ChunkInput)
      returns (steps: seq<Step>, task: nat, end: Sys)
    requires r.uploadId in sys.sessions && sys.sessions[r.uploadId].owner == r.userId
    requires !sys.sessions[r.uploadId].completed && r.hash != ""
    ensures Interleaved(sha, sys, steps, end) && task !in sys.chunks
    ensures end == sys.(files := sys.files[ChunkObject(r.uploadId, r.index) := r.body],
                        chunks :=
                          sys.chunks[task := ChunkTask(r, sys.sessions[r.uploadId].chunksDone, Writing(|r.body|))])
  {
    hide Interleaved, ChunkObject, EqualFold, CompleteStep, PromoteStep, SessionStep;
    task := FreshTask(sys.chunks);
    InterleavedNone(sha, sys);
    var s1 := Apply(sha, sys, BeginChunk(task, r));
    Extend(sha, sys, [], sys, BeginChunk(task, r));
    assert s1 == sys.(chunks := sys.chunks[task := ChunkTask(r, sys.sessions[r.uploadId].chunksDone, ToCreate)]);
    steps, end := PutAlone(sha, sys, [] + [BeginChunk(task, r)], s1, task);
  }

  /** A chunk request, accepted, rejected, broken off or turned away, is a run of its steps. */
  lemma ChunkCall(cfg: Config, s: State, input: ChunkInput, sys: Sys) returns (steps: seq<Step>, end: Sys)
    requires Shaped(s.tree) && Matches(sys, s)
    ensures Interleaved(cfg.sha, sys, steps, end) && SameTasks(sys, end) && end.promised == sys.promised
    ensures Matches(end, UploadChunk(cfg, s, input).state)
  {
    hide Interleaved, ChunkObject, EqualFold, Shaped, Blobs, Temps, UploadChunk, CheckChunk, Put, SamePlaces, IsTemp,
      ObjectShape, Apply;
    if !Opened(s, input) {
      ChunkRefused(cfg, s, input);
      InterleavedNone(cfg.sha, sys);
      steps, end := [], sys;
    } else {
      UploadChunkOutcome(cfg, s, input);
      var r, at := UploadChunk(cfg, s, input), ChunkObject(input.uploadId, input.index);
      ChunkLocation(input.uploadId, input.index);
      TempPut(s.tree, r.state.tree, at, input.body);
      var written, task, s1 := Written(cfg.sha, sys, input);
      if input.broken {
        steps, end := BreaksOff(cfg.sha, sys, written, s1, task);
      } else if r.result.Ok? {
        AcceptedHash(cfg, s, input);
        steps, end := Recorded(cfg.sha, sys, written, s1, task, input);
      } else {
        steps, end := Rejected(cfg.sha, sys, written, s1, task, input);
      }
    }
  }

  lemma AcceptedHash(cfg: Config, s: State, input: ChunkInput)
    requires Shaped(s.tree) && Opened(s, input) && UploadChunk(cfg, s, input).result.Ok?
    ensures EqualFold(cfg.sha(input.body), input.hash)
  {
    hide Put, Delete, EqualFold, Stat, Shaped, StoredExcept;
  }

  lemma BreaksOff(sha: Bytes -> string, sys: Sys, steps: seq<Step>, mid: Sys, task: nat)
      returns (more: seq<Step>, end: Sys)
    requires Interleaved(sha, sys, steps, mid) && task in mid.chunks && task !in sys.chunks
    requires mid.chunks == sys.chunks[task := mid.chunks[task]]
    ensures Interleaved(sha, sys, more, end) && end == mid.(chunks := sys.chunks)
  {
    hide Interleaved, CompleteStep, PromoteStep, SessionStep;
    end := Apply(sha, mid, AbortChunk(task));
    Extend(sha, sys, steps, mid, AbortChunk(task));
    more := steps + [AbortChunk(task)];
    assert mid.chunks - {task} == sys.chunks;
  }

  lemma Ended(sha: Bytes -> string, sys: Sys, steps: seq<Step>, mid: Sys, task: nat) returns (more: seq<Step>, end: Sys)
    requires Interleaved(sha, sys, steps, mid) && task in mid.chunks
    requires mid.chunks[task].stage == Writing(|mid.chunks[task].request.body|)
    ensures Interleaved(sha, sys, more, end)
    ensures end == mid.(chunks := mid.chunks[task := mid.chunks[task].(stage := ToVerify)])
  {
    hide Interleaved, CompleteStep, PromoteStep, SessionStep;
    end := Apply(sha, mid, EndChunk(task));
    Extend(sha, sys, steps, mid, EndChunk(task));
    more := steps + [EndChunk(task)];
  }

  lemma Rejected(sha: Bytes -> string, sys: Sys, steps: seq<Step>, mid: Sys, task: nat, r: ChunkInput)
      returns (more: seq<Step>, end: Sys)
    requires Interleaved(sha, sys, steps, mid) && task in mid.chunks && task !in sys.chunks
    requires mid.chunks == sys.chunks[task := mid.chunks[task]] && mid.chunks[task].request == r
    requires mid.chunks[task].stage == Writing(|r.body|)
    ensures Interleaved(sha, sys, more, end)
    ensures end == mid.(files := mid.files - {ChunkObject(r.uploadId, r.index)}, chunks := sys.chunks)
  {
    hide Interleaved, CompleteStep, PromoteStep, SessionStep, ChunkObject;
    var ended, s1 := Ended(sha, sys, steps, mid, task);
    end := Apply(sha, s1, RejectChunk(task));
    Extend(sha, sys, ended, s1, RejectChunk(task));
    more := ended + [RejectChunk(task)];
    assert s1.chunks - {task} == sys.chunks;
  }

  lemma Recorded(sha: Bytes -> string, sys: Sys, steps: seq<Step>, mid: Sys, task: nat, r: ChunkInput)
      returns (more: seq<Step>, end: Sys)
    requires Interleaved(sha, sys, steps, mid) && task in mid.chunks && task !in sys.chunks
    requires mid.chunks == sys.chunks[task := mid.chunks[task]] && mid.chunks[task].request == r
    requires mid.chunks[task].stage == Writing(|r.body|) && EqualFold(sha(r.body), r.hash)
    requires r.uploadId in mid.sessions && mid.chunks[task].snapshot == mid.sessions[r.uploadId].chunksDone
    ensures Interleaved(sha, sys, more, end)
    ensures var upload := mid.sessions[r.uploadId];
      end == mid.(sessions := mid.sessions[r.uploadId := upload.(chunksDone := WithIndex(upload.chunksDone, r.index))],
                  chunks := sys.chunks)
  {
    hide Interleaved, CompleteStep, PromoteStep, SessionStep, ChunkObject, EqualFold;
    var ended, s1 := Ended(sha, sys, steps, mid, task);
    var s2 := Apply(sha, s1, AcceptChunk(task));
    Extend(sha, sys, ended, s1, AcceptChunk(task));
    end := Apply(sha, s2, RecordChunk(task));
    Extend(sha, sys, ended + [AcceptChunk(task)], s2, RecordChunk(task));
    more := ended + [AcceptChunk(task)] + [RecordChunk(task)];
    assert s2.chunks - {task} == sys.chunks;
    assert mid.sessions[r.uploadId := mid.sessions[r.uploadId]] == mid.sessions;
  }

  // ---------- completion ----------

  /** A completion that fails after it has begun leaves nothing but the objects without the file
      it was assembling. */
  lemma GivesUp(sha: Bytes -> string, sys: Sys, steps: seq<Step>, mid: Sys, id: UUID, step: Step)
      returns (more: seq<Step>, end: Sys)
    requires Interleaved(sha, sys, steps, mid) && id in mid.completes && id !in sys.completes
    requires mid.completes == sys.completes[id := mid.completes[id]] && Allowed(mid, step)
    requires Apply(sha, mid, step) == GiveUp(mid, id)
    ensures Interleaved(sha, sys, more, end)
    ensures end == mid.(files := mid.files - {FinalObject(id)}, completes := sys.completes)
  {
    hide Interleaved, Apply, Allowed, FinalObject;
    end := Apply(sha, mid, step);
    Extend(sha, sys, steps, mid, step);
    more := steps + [step];
    assert mid.completes - {id} == sys.completes;
  }

  /** The completion has read its session. */
  lemma Begun(sha: Bytes -> string, sys: Sys, input: CompleteInput) returns (steps: seq<Step>, end: Sys)
    requires input.uploadId in sys.sessions && input.uploadId !in sys.completes && input.finalHash != ""
    requires var upload := sys.sessions[input.uploadId];
      upload.owner == input.userId && !upload.completed && upload.chunksDone != []
    ensures Interleaved(sha, sys, steps, end)
    ensures var upload := sys.sessions[input.uploadId];
      var task := CompleteTask(upload, input.finalHash, Sort(upload.chunksDone), Starting);
      end == sys.(completes := sys.completes[input.uploadId := task])
  {
    hide Interleaved, Sort, ChunkStep, PromoteStep, SessionStep;
    InterleavedNone(sha, sys);
    end := Apply(sha, sys, BeginComplete(input));
    Extend(sha, sys, [], sys, BeginComplete(input));
    steps := [] + [BeginComplete(input)];
  }

  /** A chunk cannot be read: the completion stops. */
  lemma StopsMissing(sha: Bytes -> string, sys: Sys, input: CompleteInput) returns (steps: seq<Step>, end: Sys)
    requires input.uploadId in sys.sessions && input.uploadId !in sys.completes && input.finalHash != ""
    requires var upload := sys.sessions[input.uploadId];
      upload.owner == input.userId && !upload.completed && upload.chunksDone != []
    ensures Interleaved(sha, sys, steps, end)
    ensures end == sys.(files := sys.files - {FinalObject(input.uploadId)})
  {
    hide Interleaved, Sort, FinalObject, Apply;
    var id := input.uploadId;
    var begun, s1 := Begun(sha, sys, input);
    CopyStarts(sha, s1, id);
    SortEmpty(sys.sessions[id].chunksDone);
    var s2 := Apply(sha, s1, CreateFinal(id));
    Extend(sha, sys, begun, s1, CreateFinal(id));
    assert s2.completes == sys.completes[id := s2.completes[id]];
    MissingStops(sha, s2, id);
    steps, end := GivesUp(sha, sys, begun + [CreateFinal(id)], s2, id, ChunkMissing(id));
    assert s2.files - {FinalObject(id)} == sys.files - {FinalObject(id)};
  }

  lemma MissingStops(sha: Bytes -> string, s: Sys, id: UUID)
    requires MoreToCopy(s, id)
    ensures Apply(sha, s, ChunkMissing(id)) == GiveUp(s, id)
  {
  }

  lemma SortEmpty(xs: seq<int>)
    requires xs != []
    ensures Sort(xs) != []
  {
    SortSorts(xs);
    assert |multiset(Sort(xs))| == |Sort(xs)| && |multiset(xs)| == |xs|;
  }

  /** All chunks are read and copied; the assembled file holds what is stored. */
  lemma Copied(sha: Bytes -> string, sys: Sys, input: CompleteInput, body: int -> Bytes)
      returns (steps: seq<Step>, end: Sys)
    requires input.uploadId in sys.sessions && input.uploadId !in sys.completes && input.finalHash != ""
    requires var upload := sys.sessions[input.uploadId];
      upload.owner == input.userId && !upload.completed && upload.chunksDone != []
    ensures Interleaved(sha, sys, steps, end)
    ensures var upload, id := sys.sessions[input.uploadId], input.uploadId;
      var order := Sort(upload.chunksDone);
      var task := CompleteTask(upload, input.finalHash, order, Hashing([]));
      end == sys.(files := sys.files[FinalObject(id) := AllRead(order, body)], completes := sys.completes[id := task])
  {
    hide Interleaved, Sort, FinalObject, AllRead, Apply;
    var begun, s1 := Begun(sha, sys, input);
    steps, end := CopyAlone(sha, sys, begun, s1, input.uploadId, body);
  }

  /** The bytes have another hash. */
  lemma StopsHashed(sha: Bytes -> string, sys: Sys, input: CompleteInput, body: int -> Bytes)
      returns (steps: seq<Step>, end: Sys)
    requires input.uploadId in sys.sessions && input.uploadId !in sys.completes && input.finalHash != ""
    requires var upload := sys.sessions[input.uploadId];
      upload.owner == input.userId && !upload.completed && upload.chunksDone != []
    requires !EqualFold(sha(AllRead(Sort(sys.sessions[input.uploadId].chunksDone), body)), input.finalHash)
    ensures Interleaved(sha, sys, steps, end)
    ensures end == sys.(files := sys.files - {FinalObject(input.uploadId)})
  {
    hide Interleaved, Sort, FinalObject, AllRead, EqualFold, ChunkStep, PromoteStep, SessionStep;
    var id := input.uploadId;
    var whole := AllRead(Sort(sys.sessions[id].chunksDone), body);
    var copied, s1 := Copied(sha, sys, input, body);
    var s2 := Apply(sha, s1, HashPiece(id, |whole|));
    Extend(sha, sys, copied, s1, HashPiece(id, |whole|));
    assert [] + whole[0..0 + |whole|] == whole;
    assert s2 == SetStage(s1, id, Hashing(whole));
    assert s2.completes == sys.completes[id := s2.completes[id]];
    steps, end := GivesUp(sha, sys, copied + [HashPiece(id, |whole|)], s2, id, EndHash(id));
    assert s2.files - {FinalObject(id)} == sys.files - {FinalObject(id)};
  }

  /** Something is in the way at the blob's place. */
  lemma StopsMoving(sha: Bytes -> string, sys: Sys, input: CompleteInput, body: int -> Bytes)
      returns (steps: seq<Step>, end: Sys)
    requires input.uploadId in sys.sessions && input.uploadId !in sys.completes && input.finalHash != ""
    requires var upload := sys.sessions[input.uploadId];
      upload.owner == input.userId && !upload.completed && upload.chunksDone != []
    requires EqualFold(sha(AllRead(Sort(sys.sessions[input.uploadId].chunksDone), body)), input.finalHash)
    ensures Interleaved(sha, sys, steps, end)
    ensures end == sys.(files := sys.files - {FinalObject(input.uploadId)})
  {
    hide Interleaved, Sort, FinalObject, AllRead, EqualFold, ChunkStep, CompleteStep, SessionStep;
    var id := input.uploadId;
    var whole := AllRead(Sort(sys.sessions[id].chunksDone), body);
    var copied, s1 := Copied(sha, sys, input, body);
    var hashed, s2 := HashedAlone(sha, sys, copied, s1, id, whole);
    assert s2.completes == sys.completes[id := s2.completes[id]];
    steps, end := GivesUp(sha, sys, hashed, s2, id, MoveFails(id));
    assert s2.files - {FinalObject(id)} == sys.files - {FinalObject(id)};
  }

  /** Nothing is wrong: moved, recorded, marked and cleaned up. */
  lemma Finishes(sha: Bytes -> string, sys: Sys, input: CompleteInput, body: int -> Bytes, now: int)
      returns (steps: seq<Step>, end: Sys)
    requires input.uploadId in sys.sessions && input.uploadId !in sys.completes && input.finalHash != ""
    requires input.uploadId !in sys.rows
    requires var upload := sys.sessions[input.uploadId];
      upload.owner == input.userId && !upload.completed && upload.chunksDone != []
    requires EqualFold(sha(AllRead(Sort(sys.sessions[input.uploadId].chunksDone), body)), input.finalHash)
    ensures Interleaved(sha, sys, steps, end) && SameTasks(sys, end)
    ensures var upload, id := sys.sessions[input.uploadId], input.uploadId;
      var whole := AllRead(Sort(upload.chunksDone), body);
      var row := Blob(upload.bucket, upload.filename, upload.size, sha(whole), upload.bucket + "/" + id, None, now);
      var moved := (sys.files[FinalObject(id) := whole] - {FinalObject(id)})[BlobObject(upload.bucket, id) := whole];
      && end.files == WithoutTree(moved, id) && end.rows == sys.rows[id := row]
      && end.sessions == sys.sessions[id := upload.(completed := true)]
      && end.promised == sys.promised[id := input.finalHash]
  {
    hide Interleaved, Sort, FinalObject, BlobObject, AllRead, EqualFold, Apply, WithoutTree;
    var id := input.uploadId;
    var whole := AllRead(Sort(sys.sessions[id].chunksDone), body);
    var copied, s1 := Copied(sha, sys, input, body);
    var moved, s2 := PromoteAlone(sha, sys, copied, s1, id, whole);
    steps, end := Commits(sha, sys, moved, s2, id, now);
    assert s2.completes - {id} == sys.completes;
  }

  lemma Commits(sha: Bytes -> string, sys: Sys, steps: seq<Step>, mid: Sys, id: UUID, now: int)
      returns (more: seq<Step>, end: Sys)
    requires Interleaved(sha, sys, steps, mid) && id in mid.completes && mid.completes[id].stage.ToCommit?
    requires id !in mid.rows && id in mid.sessions
    ensures Interleaved(sha, sys, more, end) && end.chunks == mid.chunks && end.completes == mid.completes - {id}
    ensures var t := mid.completes[id];
      var path := t.upload.bucket + "/" + id;
      var row := Blob(t.upload.bucket, t.upload.filename, t.upload.size, t.stage.hash, path, None, now);
      && end.files == WithoutTree(mid.files, id) && end.rows == mid.rows[id := row]
      && end.sessions == mid.sessions[id := mid.sessions[id].(completed := true)]
      && end.promised == mid.promised[id := t.finalHash]
  {
    hide Interleaved, Apply, WithoutTree;
    var s3 := Apply(sha, mid, Commit(id, now));
    CommitEffect(sha, mid, id, now);
    Extend(sha, sys, steps, mid, Commit(id, now));
    var s4 := Apply(sha, s3, Mark(id));
    MarkEffect(sha, s3, id);
    Extend(sha, sys, steps + [Commit(id, now)], s3, Mark(id));
    end := Apply(sha, s4, Clean(id));
    CleanEffect(sha, s4, id);
    Extend(sha, sys, steps + [Commit(id, now)] + [Mark(id)], s4, Clean(id));
    more := steps + [Commit(id, now)] + [Mark(id)] + [Clean(id)];
  }

  lemma CommitEffect(sha: Bytes -> string, s: Sys, id: UUID, now: int)
    requires id in s.completes && s.completes[id].stage.ToCommit? && id !in s.rows
    ensures var t := s.completes[id];
      var path := t.upload.bucket + "/" + id;
      var row := Blob(t.upload.bucket, t.upload.filename, t.upload.size, t.stage.hash, path, None, now);
      Apply(sha, s, Commit(id, now))
      == SetStage(s.(rows := s.rows[id := row], promised := s.promised[id := t.finalHash]), id, ToMark)
  {
  }

  lemma MarkEffect(sha: Bytes -> string, s: Sys, id: UUID)
    requires id in s.completes && s.completes[id].stage == ToMark && id in s.sessions
    ensures Apply(sha, s, Mark(id))
         == SetStage(s.(sessions := s.sessions[id := s.sessions[id].(completed := true)]), id, ToClean)
  {
  }

  lemma CleanEffect(sha: Bytes -> string, s: Sys, id: UUID)
    requires id in s.completes && s.completes[id].stage == ToClean
    ensures Apply(sha, s, Clean(id)) == EndTask(s.(files := WithoutTree(s.files, id)), id)
  {
    hide WithoutTree;
  }

  /** What is stored for the chunks of a session, as what is read of them. */
  ghost function StoredBody(temps: map<Path, Bytes>, id: UUID): int -> Bytes {
    i => if ChunkObject(id, i) in temps then temps[ChunkObject(id, i)] else []
  }

  lemma {:induction false} ReadIsConcat(temps: map<Path, Bytes>, id: UUID, order: seq<int>)
    ensures AllRead(order, StoredBody(temps, id)) == Concat(ChunkBytes(temps, id, order))
    decreases |order|
  {
    hide ChunkObject;
    if order != [] {
      ReadIsConcat(temps, id, order[1..]);
      assert ChunkBytes(temps, id, order)[1..] == ChunkBytes(temps, id, order[1..]);
    }
  }

  /** A completion, whatever comes of it, is a run of its steps. */
  lemma CompleteCall(cfg: Config, s: State, input: CompleteInput, now: int, sys: Sys)
      returns (steps: seq<Step>, end: Sys)
    requires Inv(cfg.sha, s) && Matches(sys, s) && input.uploadId !in sys.completes
    ensures Interleaved(cfg.sha, sys, steps, end) && SameTasks(sys, end)
    ensures Matches(end, Complete(cfg, s, input, now).state)
  {
    hide Interleaved, InvExcept, Complete, Blobs, Temps, Assemble, BlobObject, Sort, EqualFold, Shaped, FinalObject,
      AllRead, Concat, ChunkObject, Free, StoredBody, WithoutTree, WithoutSession, IsTemp;
    if !Completable(s, input) {
      CompleteRefused(cfg, s, input, now);
      InterleavedNone(cfg.sha, sys);
      steps, end := [], sys;
    } else {
      var id := input.uploadId;
      var order, body := Sort(s.sessions[id].chunksDone), StoredBody(Temps(s.tree), id);
      CompleteOutcome(cfg, s, input, now);
      ShapedInv(cfg.sha, s);
      AssembleConcat(s.tree, id, order);
      ReadIsConcat(Temps(s.tree), id, order);
      FinalLocation(id);
      var r := Complete(cfg, s, input, now);
      if r.result.Err? {
        TempPut(s.tree, r.state.tree, FinalObject(id), []);
      }
      if Assemble(s.tree, id, order).None? {
        steps, end := StopsMissing(cfg.sha, sys, input);
      } else if !EqualFold(cfg.sha(AllRead(order, body)), input.finalHash) {
        steps, end := StopsHashed(cfg.sha, sys, input, body);
      } else if !Free(s.tree, BlobObject(s.sessions[id].bucket, id)) {
        steps, end := StopsMoving(cfg.sha, sys, input, body);
      } else {
        OpenIsNoRow(cfg.sha, s, id);
        steps, end := Finishes(cfg.sha, sys, input, body, now);
        PromotedFiles(s.tree, r.state.tree, s.sessions[id].bucket, id, AllRead(order, body));
      }
    }
  }

  lemma OpenIsNoRow(sha: Bytes -> string, s: State, id: UUID)
    requires Inv(sha, s) && id in s.sessions && !s.sessions[id].completed
    ensures id !in s.rows && PlainBucket(s.sessions[id].bucket)
  {
    hide Shaped, RowsCanonical, PlainBucket, Blobs;
    assert References.Unused(Refs(s.rows), Blobs(s.tree), id);
  }

  /** The objects after a promotion, counted either way. */
  lemma PromotedFiles(t: Tree, u: Tree, bucket: string, id: UUID, content: Bytes)
    requires Shaped(t) && PlainBucket(bucket)
    requires Blobs(u) == Blobs(t)[BlobObject(bucket, id) := content] && Temps(u) == WithoutSession(Temps(t), id)
    ensures var moved := (t.files[FinalObject(id) := content] - {FinalObject(id)})[BlobObject(bucket, id) := content];
      u.files == WithoutTree(moved, id)
  {
    hide Shaped, PlainBucket, FinalObject, BlobObject, Blobs, Temps, WithoutSession, WithoutTree;
    var at, final := BlobObject(bucket, id), FinalObject(id);
    BlobObjectShape(bucket, id);
    FinalLocation(id);
    FinalIsOwn(id);
    FilesFromBoth(t, Blobs(t), Temps(t));
    FilesFromBoth(u, Blobs(u), Temps(u));
    KeptByTree(t.files, at, final, id, content);
    KeptByParts(t, at, id, content);
  }

  lemma KeptByTree(files: Files, at: Path, final: Path, id: UUID, content: Bytes)
    requires OwnTemp(final, id) && !IsTemp(at)
    ensures WithoutTree((files[final := content] - {final})[at := content], id)
         == (map f | f in files && !OwnTemp(f, id) :: files[f])[at := content]
  {
    hide IsTemp;
  }

  lemma KeptByParts(t: Tree, at: Path, id: UUID, content: Bytes)
    requires !IsTemp(at)
    ensures Blobs(t)[at := content] + WithoutSession(Temps(t), id)
         == (map f | f in t.files && !OwnTemp(f, id) :: t.files[f])[at := content]
  {
    var kept := map f | f in t.files && !OwnTemp(f, id) :: t.files[f];
    forall f ensures f in Blobs(t) || f in WithoutSession(Temps(t), id) <==> f in kept {
      assert f in Temps(t) <==> f in t.files && IsTemp(f);
    }
    assert at !in WithoutSession(Temps(t), id);
  }

  // ---------- opening and cleaning up ----------

  /** Opening a session. */
  lemma InitiateCall(cfg: Config, s: State, input: InitiateInput, id: UUID, now: int, sys: Sys)
      returns (steps: seq<Step>, end: Sys)
    requires Shaped(s.tree) && FreshId(s, id) && PlainBucket(input.bucket)
    requires Matches(sys, s) && id !in sys.completes
    ensures Interleaved(cfg.sha, sys, steps, end) && SameTasks(sys, end) && end.promised == sys.promised
    ensures Matches(end, Initiate(cfg, s, input, id, now).state)
  {
    hide Interleaved, Shaped, EnsureBucket, PlainBucket, ChunkStep, CompleteStep, PromoteStep;
    EnsureShaped(cfg.ensure, s.tree, CHUNK_BUCKET);
    var upload := Session(input.userId, input.bucket, input.filename, input.size, [], false, now);
    InterleavedNone(cfg.sha, sys);
    end := Apply(cfg.sha, sys, OpenSession(id, upload));
    Extend(cfg.sha, sys, [], sys, OpenSession(id, upload));
    steps := [] + [OpenSession(id, upload)];
  }

  /** Cleaning up the listed sessions, one after the other. */
  lemma {:induction false} CleanupCall(sha: Bytes -> string, c: Cleaned, order: seq<UUID>, sys: Sys)
      returns (steps: seq<Step>, end: Sys)
    requires Shaped(c.state.tree) && Matches(sys, c.state)
    ensures Interleaved(sha, sys, steps, end) && SameTasks(sys, end) && end.promised == sys.promised
    ensures Matches(end, CleanupAbandoned(c, order).state)
    decreases |order|
  {
    hide Interleaved, Shaped, RemoveTree, ChunkStep, CompleteStep, PromoteStep, WithoutTree;
    if order == [] {
      InterleavedNone(sha, sys);
      steps, end := [], sys;
    } else {
      var id, t := order[0], RemoveTree(c.state.tree, CHUNK_BUCKET, order[0]).tree;
      RemoveSessionTree(c.state.tree, id);
      SessionFiles(c.state.tree, t, id);
      var next := Cleaned(c.state.(sessions := c.state.sessions - {id}, tree := t), c.removed + 1);
      var s1 := Apply(sha, sys, CleanupTree(id));
      var s2 := Apply(sha, s1, CleanupSession(id));
      var rest: seq<Step>;
      rest, end := CleanupCall(sha, next, order[1..], s2);
      Before(sha, s1, CleanupSession(id), rest, end);
      Before(sha, sys, CleanupTree(id), [CleanupSession(id)] + rest, end);
      steps := [CleanupTree(id)] + ([CleanupSession(id)] + rest);
    }
  }

  lemma Before(sha: Bytes -> string, s: Sys, step: Step, rest: seq<Step>, end: Sys)
    requires Allowed(s, step) && Interleaved(sha, Apply(sha, s, step), rest, end)
    ensures Interleaved(sha, s, [step] + rest, end)
  {
    hide Allowed, Apply;
    assert ([step] + rest)[1..] == rest;
  }

  lemma SessionFiles(t: Tree, u: Tree, id: UUID)
    requires Shaped(t) && u.files == (map f | f in t.files && !(IsTemp(f) && f[1] == id) :: t.files[f])
    ensures u.files == WithoutTree(t.files, id)
  {
    hide IsUuid;
    forall f | f in t.files && IsTemp(f) ensures |f| > 1 {
      assert ObjectShape(f);
    }
  }
}
