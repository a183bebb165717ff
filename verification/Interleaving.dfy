/** Multipart uploads under any interleaving: many chunk requests and, for each session, at
    most one Complete, each split into the steps between which others may run. */
module Interleaving {
  import opened Wrappers
  import opened Text
  import opened Paths
  import opened Trees
  import opened Store
  import opened MultipartModel
  import opened Shapes
  import opened RoundTrip
  import opened UploadCap
  import Assembly

  type Files = map<Path, Bytes>

  /** Where a chunk request stands. */
  datatype ChunkStage = ToCreate | Writing(sent: nat) | ToVerify | ToRecord

  /** A chunk request in flight, with the chunk list it read at its start. */
  datatype ChunkTask = ChunkTask(request: ChunkInput, snapshot: seq<int>, stage: ChunkStage)

  /** Where a Complete stands; hash is what inspectFile returned. */
  datatype CompleteStage =
    | Starting
    | Copying(k: nat)
    | Hashing(read: Bytes)
    | ToMove(hash: string)
    | ToCommit(hash: string)
    | ToMark
    | ToClean

  /** A Complete in flight, with the session it read at its start. */
  datatype CompleteTask = CompleteTask(upload: Session, finalHash: string, order: seq<int>, stage: CompleteStage)

  /** The shared state; promised remembers the final hash each committed blob came with. */
  datatype Sys = Sys(
    files: Files,
    sessions: Sessions,
    rows: Rows,
    promised: map<UUID, string>,
    chunks: map<nat, ChunkTask>,
    completes: map<UUID, CompleteTask>)

  datatype Step =
    | OpenSession(id: UUID, upload: Session)
    | BeginChunk(task: nat, request: ChunkInput)
    | CreateChunk(task: nat)
    | WriteChunk(task: nat, n: nat, lands: bool)
    | EndChunk(task: nat)
    | AcceptChunk(task: nat)
    | RejectChunk(task: nat)
    | RecordChunk(task: nat)
    | AbortChunk(task: nat)
    | BeginComplete(completion: CompleteInput)
    | CreateFinal(id: UUID)
    | CopyPiece(id: UUID, piece: Bytes)
    | NextChunk(id: UUID)
    | ChunkMissing(id: UUID)
    | EndCopy(id: UUID)
    | HashPiece(id: UUID, n: nat)
    | EndHash(id: UUID)
    | MoveFinal(id: UUID)
    | MoveFails(id: UUID)
    | Commit(id: UUID, now: int)
    | Mark(id: UUID)
    | Clean(id: UUID)
    | Die(id: UUID)
    | CleanupTree(id: UUID)
    | CleanupSession(id: UUID)

  /** A write of data at an offset; a gap reads as zeros. */
  function Splice(content: Bytes, at: nat, data: Bytes): Bytes {
    var front := if at <= |content| then content[..at] else content + seq(at - |content|, _ => 0 as Byte);
    front + data + (if at + |data| <= |content| then content[at + |data|..] else [])
  }

  /** A write changes the bytes it covers, leaves the others, and fills a gap before it with zeros. */
  lemma SpliceExact(content: Bytes, at: nat, data: Bytes)
    ensures var r := Splice(content, at, data);
      && |r| == (if |content| > at + |data| then |content| else at + |data|)
      && (forall i :: at <= i < at + |data| ==> r[i] == data[i - at])
      && (forall i :: 0 <= i < |content| && (i < at || at + |data| <= i) ==> r[i] == content[i])
      && (forall i :: |content| <= i < at ==> r[i] == 0)
  {
    var r := Splice(content, at, data);
    var front := if at <= |content| then content[..at] else content + seq(at - |content|, _ => 0 as Byte);
    assert |front| == at && r[..at] == front;
    forall i | 0 <= i < |content| && at + |data| <= i ensures r[i] == content[i] {
      assert r[at + |data|..] == content[at + |data|..];
      assert r[i] == r[at + |data|..][i - at - |data|];
    }
    forall i | 0 <= i < at ensures r[i] == front[i] {
      assert r[i] == r[..at][i];
    }
  }

  function WithoutTree(files: Files, id: UUID): Files {
    map f | f in files && !(IsTemp(f) && |f| > 1 && f[1] == id) :: files[f]
  }

  function EndTask(s: Sys, id: UUID): Sys {
    s.(completes := s.completes - {id})
  }

  /** Give up a Complete and delete the file it was assembling. */
  function GiveUp(s: Sys, id: UUID): Sys {
    EndTask(s.(files := s.files - {FinalObject(id)}), id)
  }

  function SetStage(s: Sys, id: UUID, stage: CompleteStage): Sys
    requires id in s.completes
  {
    s.(completes := s.completes[id := s.completes[id].(stage := stage)])
  }

  /** The steps of a chunk request. A write lands in the file of that name unless the file was
      replaced after it was opened; the size and cap checks may go either way, the hash check
      compares the bytes the request sent. */
  function ChunkStep(sha: Bytes -> string, s: Sys, step: Step): Sys {
    match step
    case BeginChunk(task, r) =>
      if task in s.chunks || r.uploadId !in s.sessions then s
      else
        var upload := s.sessions[r.uploadId];
        if upload.owner != r.userId || upload.completed || r.hash == "" then s
        else s.(chunks := s.chunks[task := ChunkTask(r, upload.chunksDone, ToCreate)])
    case CreateChunk(task) =>
      if task !in s.chunks || s.chunks[task].stage != ToCreate then s
      else
        var r := s.chunks[task].request;
        s.(files := s.files[ChunkObject(r.uploadId, r.index) := []],
           chunks := s.chunks[task := s.chunks[task].(stage := Writing(0))])
    case WriteChunk(task, n, lands) =>
      if task !in s.chunks || !s.chunks[task].stage.Writing? then s
      else
        var r, sent := s.chunks[task].request, s.chunks[task].stage.sent;
        if sent + n > |r.body| then s
        else
          var at := ChunkObject(r.uploadId, r.index);
          var landed := if lands && at in s.files
            then s.files[at := Splice(s.files[at], sent, r.body[sent..sent + n])] else s.files;
          s.(files := landed,
             chunks := s.chunks[task := s.chunks[task].(stage := Writing(sent + n))])
    case EndChunk(task) =>
      if task !in s.chunks || s.chunks[task].stage != Writing(|s.chunks[task].request.body|) then s
      else s.(chunks := s.chunks[task := s.chunks[task].(stage := ToVerify)])
    case AcceptChunk(task) =>
      if task !in s.chunks || s.chunks[task].stage != ToVerify
        || !EqualFold(sha(s.chunks[task].request.body), s.chunks[task].request.hash) then s
      else s.(chunks := s.chunks[task := s.chunks[task].(stage := ToRecord)])
    case RejectChunk(task) =>
      if task !in s.chunks || s.chunks[task].stage != ToVerify then s
      else
        var r := s.chunks[task].request;
        s.(files := s.files - {ChunkObject(r.uploadId, r.index)}, chunks := s.chunks - {task})
    case RecordChunk(task) =>
      if task !in s.chunks || s.chunks[task].stage != ToRecord then s
      else
        var t := s.chunks[task];
        var id := t.request.uploadId;
        var ended := s.(chunks := s.chunks - {task});
        if t.request.index in t.snapshot || id !in s.sessions then ended
        else ended.(sessions := s.sessions[id := s.sessions[id].(chunksDone := t.snapshot + [t.request.index])])
    case AbortChunk(task) => s.(chunks := s.chunks - {task})
    case _ => s
  }

  /** A Complete is copying and has not come to the end of its list. */
  predicate MoreToCopy(s: Sys, id: UUID) {
    id in s.completes && s.completes[id].stage.Copying? && s.completes[id].stage.k < |s.completes[id].order|
  }

  /** The steps of Complete. A read of a chunk may return anything, since the file may be
      truncated, rewritten or unlinked under the reader. */
  function CompleteStep(sha: Bytes -> string, s: Sys, step: Step): Sys {
    match step
    case BeginComplete(r) =>
      if r.finalHash == "" || r.uploadId !in s.sessions || r.uploadId in s.completes then s
      else
        var upload := s.sessions[r.uploadId];
        if upload.owner != r.userId || upload.completed || upload.chunksDone == [] then s
        else
          var task := CompleteTask(upload, r.finalHash, Sort(upload.chunksDone), Starting);
          s.(completes := s.completes[r.uploadId := task])
    case CreateFinal(id) =>
      if id !in s.completes || s.completes[id].stage != Starting then s
      else SetStage(s.(files := s.files[FinalObject(id) := []]), id, Copying(0))
    case CopyPiece(id, piece) =>
      if !MoreToCopy(s, id) || FinalObject(id) !in s.files then s
      else s.(files := s.files[FinalObject(id) := s.files[FinalObject(id)] + piece])
    case NextChunk(id) =>
      if !MoreToCopy(s, id) then s
      else SetStage(s, id, Copying(s.completes[id].stage.k + 1))
    case ChunkMissing(id) =>
      if !MoreToCopy(s, id) then s
      else GiveUp(s, id)
    case EndCopy(id) =>
      if id !in s.completes || s.completes[id].stage != Copying(|s.completes[id].order|) then s
      else if FinalObject(id) !in s.files then GiveUp(s, id)
      else SetStage(s, id, Hashing([]))
    case HashPiece(id, n) =>
      if id !in s.completes || !s.completes[id].stage.Hashing? || FinalObject(id) !in s.files then s
      else
        var read, content := s.completes[id].stage.read, s.files[FinalObject(id)];
        if |read| + n > |content| then s else SetStage(s, id, Hashing(read + content[|read|..|read| + n]))
    case EndHash(id) =>
      if id !in s.completes || !s.completes[id].stage.Hashing? then s
      else if FinalObject(id) !in s.files then GiveUp(s, id)
      else
        var read := s.completes[id].stage.read;
        if |read| != |s.files[FinalObject(id)]| then s
        else if !EqualFold(sha(read), s.completes[id].finalHash) then GiveUp(s, id)
        else SetStage(s, id, ToMove(sha(read)))
    case _ => s
  }

  /** The steps of Complete after the hash check, and the ways it may stop. The move may also
      fail, since directories are not part of these states. */
  function PromoteStep(s: Sys, step: Step): Sys {
    match step
    case MoveFinal(id) =>
      if id !in s.completes || !s.completes[id].stage.ToMove? then s
      else if FinalObject(id) !in s.files then GiveUp(s, id)
      else
        var t := s.completes[id];
        var moved := (s.files - {FinalObject(id)})[BlobObject(t.upload.bucket, id) := s.files[FinalObject(id)]];
        SetStage(s.(files := moved), id, ToCommit(t.stage.hash))
    case MoveFails(id) =>
      if id !in s.completes || !s.completes[id].stage.ToMove? then s else GiveUp(s, id)
    case Commit(id, now) =>
      if id !in s.completes || !s.completes[id].stage.ToCommit? then s
      else if id in s.rows then EndTask(s, id)
      else
        var t := s.completes[id];
        var path := t.upload.bucket + "/" + id;
        var row := Blob(t.upload.bucket, t.upload.filename, t.upload.size, t.stage.hash, path, None, now);
        SetStage(s.(rows := s.rows[id := row], promised := s.promised[id := t.finalHash]), id, ToMark)
    case Mark(id) =>
      if id !in s.completes || s.completes[id].stage != ToMark then s
      else
        var marked := if id !in s.sessions then s
          else s.(sessions := s.sessions[id := s.sessions[id].(completed := true)]);
        SetStage(marked, id, ToClean)
    case Clean(id) =>
      if id !in s.completes || s.completes[id].stage != ToClean then s
      else EndTask(s.(files := WithoutTree(s.files, id)), id)
    case Die(id) => EndTask(s, id)
    case _ => s
  }

  /** Opening sessions, and cleaning up. A cleanup acts on what it read earlier, so it may remove
      the temporary objects and the row of any session, one completed since included. */
  function SessionStep(s: Sys, step: Step): Sys {
    match step
    case OpenSession(id, upload) =>
      if id in s.sessions || id in s.rows || id in s.completes || upload.completed || upload.chunksDone != [] then s
      else s.(sessions := s.sessions[id := upload])
    case CleanupTree(id) => s.(files := WithoutTree(s.files, id))
    case CleanupSession(id) => s.(sessions := s.sessions - {id})
    case _ => s
  }

  function Apply(sha: Bytes -> string, s: Sys, step: Step): Sys {
    match step
    case BeginChunk(_, _) => ChunkStep(sha, s, step)
    case CreateChunk(_) => ChunkStep(sha, s, step)
    case WriteChunk(_, _, _) => ChunkStep(sha, s, step)
    case EndChunk(_) => ChunkStep(sha, s, step)
    case AcceptChunk(_) => ChunkStep(sha, s, step)
    case RejectChunk(_) => ChunkStep(sha, s, step)
    case RecordChunk(_) => ChunkStep(sha, s, step)
    case AbortChunk(_) => ChunkStep(sha, s, step)
    case OpenSession(_, _) => SessionStep(s, step)
    case CleanupTree(_) => SessionStep(s, step)
    case CleanupSession(_) => SessionStep(s, step)
    case MoveFinal(_) => PromoteStep(s, step)
    case MoveFails(_) => PromoteStep(s, step)
    case Commit(_, _) => PromoteStep(s, step)
    case Mark(_) => PromoteStep(s, step)
    case Clean(_) => PromoteStep(s, step)
    case Die(_) => PromoteStep(s, step)
    case _ => CompleteStep(sha, s, step)
  }

  /** A Complete has inserted its row, and its session is still there to be marked. */
  predicate Unmarked(s: Sys, id: UUID) {
    id in s.completes && s.completes[id].stage == ToMark && id in s.sessions
  }

  /** Sessions are opened for plain buckets, and no Complete stops between inserting its row
      and marking its session. */
  ghost predicate Allowed(s: Sys, step: Step) {
    && (step.OpenSession? ==> PlainBucket(step.upload.bucket))
    && (step.Die? ==> !Unmarked(s, step.id))
  }

  ghost predicate Interleaved(sha: Bytes -> string, s: Sys, steps: seq<Step>, end: Sys)
    decreases |steps|
  {
    if steps == [] then s == end
    else Allowed(s, steps[0]) && Interleaved(sha, Apply(sha, s, steps[0]), steps[1..], end)
  }

  const IDLE: Sys := Sys(map[], map[], map[], map[], map[], map[])

  // ---------- the invariant ----------

  /** A committed blob is stored and hashes to its row's hash and to the promised one. */
  ghost predicate Committed(sha: Bytes -> string, s: Sys, id: UUID)
    requires id in s.rows
  {
    var row := s.rows[id];
    var at := BlobObject(row.bucket, id);
    && PlainBucket(row.bucket) && row.path == row.bucket + "/" + id
    && at in s.files && sha(s.files[at]) == row.hash
    && id in s.promised && EqualFold(row.hash, s.promised[id])
  }

  /** What a Complete has established at its stage. */
  ghost predicate InFlight(sha: Bytes -> string, s: Sys, id: UUID)
    requires id in s.completes
  {
    var t, final := s.completes[id], FinalObject(id);
    && PlainBucket(t.upload.bucket)
    && match t.stage
       case Hashing(read) => id !in s.rows && (final in s.files ==> read <= s.files[final])
       case ToMove(hash) =>
         id !in s.rows && EqualFold(hash, t.finalHash) && (final in s.files ==> sha(s.files[final]) == hash)
       case ToCommit(hash) =>
         var at := BlobObject(t.upload.bucket, id);
         id !in s.rows && EqualFold(hash, t.finalHash) && at in s.files && sha(s.files[at]) == hash
       case ToMark => id in s.rows
       case ToClean => id in s.rows
       case _ => id !in s.rows
  }

  /** An open session is a row only while its Complete is about to mark it. */
  ghost predicate OpenOk(s: Sys, id: UUID)
    requires id in s.sessions
  {
    && PlainBucket(s.sessions[id].bucket)
    && (!s.sessions[id].completed && id in s.rows ==> id in s.completes && s.completes[id].stage == ToMark)
  }

  /** A Complete's session is the one it read: open until it is marked, with chunks recorded. */
  ghost predicate Attached(s: Sys, id: UUID)
    requires id in s.completes
  {
    var t := s.completes[id];
    && (id in s.sessions ==>
          && s.sessions[id].bucket == t.upload.bucket && s.sessions[id].chunksDone != []
          && (t.stage != ToClean ==> !s.sessions[id].completed))
    && (t.stage == ToMark && id in s.rows ==> s.rows[id].bucket == t.upload.bucket)
  }

  ghost predicate Safe(sha: Bytes -> string, s: Sys) {
    && (forall id :: id in s.rows ==> Committed(sha, s, id))
    && (forall id :: id in s.completes ==> InFlight(sha, s, id) && Attached(s, id))
    && (forall id :: id in s.sessions ==> OpenOk(s, id))
  }

  lemma Apart(bucket: string, id: UUID, other: string, x: UUID, i: int)
    requires PlainBucket(bucket) && PlainBucket(other)
    ensures BlobObject(bucket, id) != ChunkObject(x, i) && BlobObject(bucket, id) != FinalObject(x)
    ensures ChunkObject(id, i) != FinalObject(x)
    ensures id != x ==> BlobObject(bucket, id) != BlobObject(other, x) && FinalObject(id) != FinalObject(x)
    ensures !IsTemp(BlobObject(bucket, id)) && IsTemp(FinalObject(id)) && FinalObject(id)[1] == id
  {
    hide PlainBucket, ObjectShape, Locate;
    BlobObjectShape(bucket, id);
    BlobObjectShape(other, x);
    assert ChunkObject(id, i)[2][0] == 'c' && FinalObject(x)[2][0] == 'f';
    assert FinalObject(id)[1] == id && FinalObject(x)[1] == x;
  }

  /** Two states whose files agree on everything but chunks. */
  ghost predicate OnlyChunks(a: Files, b: Files) {
    forall f :: (f in a) != (f in b) || (f in a && f in b && a[f] != b[f]) ==>
      exists id: UUID, i: int :: f == ChunkObject(id, i)
  }

  lemma ChunkStepSafe(sha: Bytes -> string, s: Sys, step: Step)
    requires Safe(sha, s)
    ensures Safe(sha, ChunkStep(sha, s, step))
  {
    hide PlainBucket, BlobObject, FinalObject, ChunkStep, OnlyChunks, EqualFold;
    var r := ChunkStep(sha, s, step);
    ChunkStepFiles(sha, s, step);
    forall id | id in r.rows ensures Committed(sha, r, id) {
      assert Committed(sha, s, id);
      KeptByChunks(s.files, r.files, r.rows[id].bucket, id);
    }
    forall id | id in r.completes ensures InFlight(sha, r, id) && Attached(r, id) {
      assert InFlight(sha, s, id) && Attached(s, id);
      KeptByChunks(s.files, r.files, r.completes[id].upload.bucket, id);
    }
    forall id | id in r.sessions ensures OpenOk(r, id) {
      assert OpenOk(s, id);
    }
  }

  lemma ChunkStepFiles(sha: Bytes -> string, s: Sys, step: Step)
    ensures var r := ChunkStep(sha, s, step);
      OnlyChunks(s.files, r.files) && r.rows == s.rows && r.promised == s.promised && r.completes == s.completes
      && r.sessions.Keys == s.sessions.Keys
      && forall id :: id in s.sessions ==> r.sessions[id].completed == s.sessions[id].completed
                                           && r.sessions[id].bucket == s.sessions[id].bucket
                                           && (s.sessions[id].chunksDone != [] ==> r.sessions[id].chunksDone != [])
  {
    hide OnlyChunks, ChunkStep;
    ChunkStepOnlyChunks(sha, s, step);
    ChunkStepTables(sha, s, step);
  }

  lemma ChunkStepTables(sha: Bytes -> string, s: Sys, step: Step)
    ensures var r := ChunkStep(sha, s, step);
      r.rows == s.rows && r.promised == s.promised && r.completes == s.completes && r.sessions.Keys == s.sessions.Keys
      && forall id :: id in s.sessions ==> r.sessions[id].completed == s.sessions[id].completed
                                           && r.sessions[id].bucket == s.sessions[id].bucket
                                           && (s.sessions[id].chunksDone != [] ==> r.sessions[id].chunksDone != [])
  {
    hide ChunkObject, Splice, EqualFold;
    if step.RecordChunk? {
    } else {
      OnlyRecordsChangeSessions(sha, s, step);
    }
  }

  lemma OnlyRecordsChangeSessions(sha: Bytes -> string, s: Sys, step: Step)
    requires !step.RecordChunk?
    ensures var r := ChunkStep(sha, s, step);
      r.rows == s.rows && r.promised == s.promised && r.completes == s.completes && r.sessions == s.sessions
  {
    hide ChunkObject, Splice, EqualFold;
  }

  lemma ChunkStepOnlyChunks(sha: Bytes -> string, s: Sys, step: Step)
    ensures OnlyChunks(s.files, ChunkStep(sha, s, step).files)
  {
    hide ChunkObject, Splice, EqualFold, OnlyChunks;
    NoChunk(s.files);
    if (step.CreateChunk? || step.WriteChunk? || step.RejectChunk?) && step.task in s.chunks {
      var r := s.chunks[step.task].request;
      var at := ChunkObject(r.uploadId, r.index);
      OneChunk(s.files, r.uploadId, r.index, []);
      if step.WriteChunk? && s.chunks[step.task].stage.Writing? && at in s.files {
        var sent := s.chunks[step.task].stage.sent;
        if sent + step.n <= |r.body| {
          OneChunk(s.files, r.uploadId, r.index, Splice(s.files[at], sent, r.body[sent..sent + step.n]));
        }
      }
    }
  }

  lemma OneChunk(files: Files, id: UUID, i: int, content: Bytes)
    ensures OnlyChunks(files, files[ChunkObject(id, i) := content])
    ensures OnlyChunks(files, files - {ChunkObject(id, i)})
  {
    hide ChunkObject;
    var at := ChunkObject(id, i);
    assert exists x: UUID, j: int :: at == ChunkObject(x, j);
  }

  lemma NoChunk(files: Files)
    ensures OnlyChunks(files, files)
  {
  }

  lemma KeptByChunks(a: Files, b: Files, bucket: string, id: UUID)
    requires OnlyChunks(a, b) && PlainBucket(bucket)
    ensures var at := BlobObject(bucket, id); (at in a <==> at in b) && (at in a ==> a[at] == b[at])
    ensures var at := FinalObject(id); (at in a <==> at in b) && (at in a ==> a[at] == b[at])
  {
    hide PlainBucket, BlobObject, FinalObject, ChunkObject;
    forall x: UUID, i: int ensures BlobObject(bucket, id) != ChunkObject(x, i) && FinalObject(id) != ChunkObject(x, i) {
      Apart(bucket, id, bucket, x, i);
      Apart(bucket, x, bucket, id, i);
    }
  }

  predicate OwnTemp(f: Path, id: UUID) {
    IsTemp(f) && |f| > 1 && f[1] == id
  }

  /** Only what belongs to one session changes: its temporary objects, its blob, its row,
      its Complete and its session. */
  ghost predicate Framed(s: Sys, r: Sys, id: UUID, bucket: string) {
    && FilesFramed(s.files, r.files, id, bucket)
    && s.rows - {id} == r.rows - {id} && s.promised - {id} == r.promised - {id}
    && s.completes - {id} == r.completes - {id} && s.sessions - {id} == r.sessions - {id}
  }

  lemma MapFramed<V>(m: map<UUID, V>, id: UUID)
    ensures forall v: V {:trigger m[id := v]} :: m[id := v] - {id} == m - {id}
    ensures m - {id} - {id} == m - {id}
  {
  }

  lemma AllFramed(s: Sys, id: UUID)
    ensures forall v {:trigger s.rows[id := v]} :: s.rows[id := v] - {id} == s.rows - {id}
    ensures forall v {:trigger s.promised[id := v]} :: s.promised[id := v] - {id} == s.promised - {id}
    ensures forall v {:trigger s.completes[id := v]} :: s.completes[id := v] - {id} == s.completes - {id}
    ensures forall v {:trigger s.sessions[id := v]} :: s.sessions[id := v] - {id} == s.sessions - {id}
    ensures s.completes - {id} - {id} == s.completes - {id} && s.sessions - {id} - {id} == s.sessions - {id}
  {
    MapFramed(s.rows, id);
    MapFramed(s.promised, id);
    MapFramed(s.completes, id);
    MapFramed(s.sessions, id);
  }

  ghost predicate OwnOk(sha: Bytes -> string, s: Sys, id: UUID) {
    && (id in s.rows ==> Committed(sha, s, id))
    && (id in s.completes ==> InFlight(sha, s, id) && Attached(s, id))
    && (id in s.sessions ==> OpenOk(s, id))
  }

  ghost predicate FilesFramed(a: Files, b: Files, id: UUID, bucket: string) {
    forall f :: !OwnTemp(f, id) && f != BlobObject(bucket, id) ==> (f in a <==> f in b) && (f in a ==> a[f] == b[f])
  }

  lemma FrameFinal(files: Files, id: UUID, bucket: string)
    ensures FilesFramed(files, files - {FinalObject(id)}, id, bucket)
    ensures FilesFramed(files, files, id, bucket)
    ensures FilesFramed(files, WithoutTree(files, id), id, bucket)
  {
    hide BlobObject;
    FinalIsOwn(id);
  }

  lemma FramePut(files: Files, id: UUID, bucket: string, content: Bytes)
    ensures FilesFramed(files, files[FinalObject(id) := content], id, bucket)
  {
    hide BlobObject;
    FinalIsOwn(id);
  }

  lemma FrameMove(files: Files, id: UUID, bucket: string, content: Bytes)
    ensures FilesFramed(files, (files - {FinalObject(id)})[BlobObject(bucket, id) := content], id, bucket)
  {
    hide BlobObject;
    FinalIsOwn(id);
  }

  /** Another session's row stays committed. */
  lemma OtherCommitted(sha: Bytes -> string, s: Sys, r: Sys, id: UUID, bucket: string, x: UUID)
    requires PlainBucket(bucket) && Framed(s, r, id, bucket) && x != id && x in r.rows && x in s.rows
    requires Committed(sha, s, x)
    ensures Committed(sha, r, x)
  {
    hide PlainBucket, BlobObject, FinalObject;
    assert x in r.rows - {id} && x in s.promised - {id};
    Apart(r.rows[x].bucket, x, bucket, id, 0);
    assert !OwnTemp(BlobObject(r.rows[x].bucket, x), id);
  }

  /** Another session's Complete keeps what it has established. */
  lemma OtherInFlight(sha: Bytes -> string, s: Sys, r: Sys, id: UUID, bucket: string, x: UUID)
    requires PlainBucket(bucket) && FilesFramed(s.files, r.files, id, bucket) && x != id
    requires x in r.completes && x in s.completes && r.completes[x] == s.completes[x] && (x in r.rows <==> x in s.rows)
    requires InFlight(sha, s, x)
    ensures InFlight(sha, r, x)
  {
    hide PlainBucket, BlobObject, FinalObject, OwnTemp;
    OtherObjects(x, r.completes[x].upload.bucket, id, bucket);
    var at, final := BlobObject(r.completes[x].upload.bucket, x), FinalObject(x);
    assert (at in s.files <==> at in r.files) && (final in s.files <==> final in r.files);
  }

  lemma OtherAttached(s: Sys, r: Sys, id: UUID, x: UUID)
    requires x != id && x in r.completes && x in s.completes && r.completes[x] == s.completes[x] && Attached(s, x)
    requires s.sessions - {id} == r.sessions - {id} && s.rows - {id} == r.rows - {id}
    ensures Attached(r, x)
  {
    assert x in r.sessions ==> x in r.sessions - {id} && r.sessions[x] == s.sessions[x];
    assert x in r.rows ==> x in r.rows - {id} && r.rows[x] == s.rows[x];
  }

  lemma OtherObjects(x: UUID, other: string, id: UUID, bucket: string)
    requires x != id && PlainBucket(other) && PlainBucket(bucket)
    ensures !OwnTemp(FinalObject(x), id) && FinalObject(x) != BlobObject(bucket, id)
    ensures !OwnTemp(BlobObject(other, x), id) && BlobObject(other, x) != BlobObject(bucket, id)
  {
    hide PlainBucket, BlobObject, FinalObject;
    Apart(other, x, bucket, id, 0);
    Apart(bucket, id, other, x, 0);
  }

  /** A framed change is safe as soon as the session it belongs to is in order. */
  lemma FramedSafe(sha: Bytes -> string, s: Sys, r: Sys, id: UUID, bucket: string)
    requires Safe(sha, s) && PlainBucket(bucket) && Framed(s, r, id, bucket) && OwnOk(sha, r, id)
    ensures Safe(sha, r)
  {
    hide PlainBucket, Committed, InFlight, Attached, FilesFramed;
    forall x | x != id ensures x in r.rows <==> x in s.rows {
      assert x in r.rows <==> x in r.rows - {id};
      assert x in s.rows <==> x in s.rows - {id};
    }
    forall x | x in r.rows ensures Committed(sha, r, x) {
      if x != id {
        OtherCommitted(sha, s, r, id, bucket, x);
      }
    }
    forall x | x in r.completes ensures InFlight(sha, r, x) && Attached(r, x) {
      if x != id {
        assert x in r.completes - {id};
        OtherInFlight(sha, s, r, id, bucket, x);
        OtherAttached(s, r, id, x);
      }
    }
    forall x | x in r.sessions ensures OpenOk(r, x) {
      if x != id {
        assert x in r.sessions - {id};
        assert OpenOk(s, x);
        assert x in s.completes ==> x in s.completes - {id};
      }
    }
  }

  lemma OwnBefore(sha: Bytes -> string, s: Sys, id: UUID)
    requires Safe(sha, s)
    ensures OwnOk(sha, s, id)
  {
    hide Committed, InFlight, Attached, OpenOk;
  }

  lemma FinalIsOwn(id: UUID)
    ensures OwnTemp(FinalObject(id), id)
  {
  }

  lemma CompleteStepFramed(sha: Bytes -> string, s: Sys, step: Step, id: UUID, bucket: string)
    requires step.CreateFinal? || step.CopyPiece? || step.NextChunk? || step.ChunkMissing? || step.EndCopy?
             || step.HashPiece? || step.EndHash?
    requires id == step.id
    ensures Framed(s, CompleteStep(sha, s, step), id, bucket)
  {
    hide CompleteStep, Framed;
    if step.CreateFinal? || step.CopyPiece? || step.NextChunk? {
      CopyStepFramed(sha, s, step, id, bucket);
    } else {
      HashStepFramed(sha, s, step, id, bucket);
    }
  }

  lemma CopyStepFramed(sha: Bytes -> string, s: Sys, step: Step, id: UUID, bucket: string)
    requires step.CreateFinal? || step.CopyPiece? || step.NextChunk?
    requires id == step.id
    ensures Framed(s, CompleteStep(sha, s, step), id, bucket)
  {
    hide BlobObject, FinalObject, EqualFold, FilesFramed, Sort;
    FrameFinal(s.files, id, bucket);
    FramePut(s.files, id, bucket, []);
    if step.CopyPiece? && FinalObject(id) in s.files {
      FramePut(s.files, id, bucket, s.files[FinalObject(id)] + step.piece);
    }
    AllFramed(s, id);
  }

  lemma HashStepFramed(sha: Bytes -> string, s: Sys, step: Step, id: UUID, bucket: string)
    requires step.ChunkMissing? || step.EndCopy? || step.HashPiece? || step.EndHash?
    requires id == step.id
    ensures Framed(s, CompleteStep(sha, s, step), id, bucket)
  {
    hide CompleteStep, Framed;
    if step.HashPiece? || step.EndHash? {
      ReadStepFramed(sha, s, step, id, bucket);
    } else {
      StopStepFramed(sha, s, step, id, bucket);
    }
  }

  lemma ReadStepFramed(sha: Bytes -> string, s: Sys, step: Step, id: UUID, bucket: string)
    requires step.HashPiece? || step.EndHash?
    requires id == step.id
    ensures Framed(s, CompleteStep(sha, s, step), id, bucket)
  {
    hide BlobObject, FinalObject, EqualFold, FilesFramed;
    FrameFinal(s.files, id, bucket);
    MapFramed(s.completes, id);
  }

  lemma StopStepFramed(sha: Bytes -> string, s: Sys, step: Step, id: UUID, bucket: string)
    requires step.ChunkMissing? || step.EndCopy?
    requires id == step.id
    ensures Framed(s, CompleteStep(sha, s, step), id, bucket)
  {
    hide BlobObject, FinalObject, FilesFramed;
    FrameFinal(s.files, id, bucket);
    MapFramed(s.completes, id);
  }

  lemma CompleteStepOwn(sha: Bytes -> string, s: Sys, step: Step, id: UUID)
    requires step.CreateFinal? || step.CopyPiece? || step.NextChunk? || step.ChunkMissing? || step.EndCopy?
             || step.HashPiece? || step.EndHash?
    requires id == step.id && id in s.completes && OwnOk(sha, s, id)
    ensures OwnOk(sha, CompleteStep(sha, s, step), id)
  {
    hide PlainBucket, BlobObject, FinalObject, EqualFold;
    if step.HashPiece? && s.completes[id].stage.Hashing? && FinalObject(id) in s.files {
      var read, content := s.completes[id].stage.read, s.files[FinalObject(id)];
      if id !in s.rows && |read| + step.n <= |content| {
        assert read + content[|read|..|read| + step.n] == content[..|read| + step.n];
      }
    }
    if step.EndHash? && s.completes[id].stage.Hashing? && FinalObject(id) in s.files {
      var read, content := s.completes[id].stage.read, s.files[FinalObject(id)];
      assert read <= content && |read| == |content| ==> read == content;
    }
  }

  lemma CompleteStepSafe(sha: Bytes -> string, s: Sys, step: Step, id: UUID)
    requires Safe(sha, s)
    requires step.CreateFinal? || step.CopyPiece? || step.NextChunk? || step.ChunkMissing? || step.EndCopy?
             || step.HashPiece? || step.EndHash?
    requires id == step.id
    ensures Safe(sha, CompleteStep(sha, s, step))
  {
    hide PlainBucket, CompleteStep, Framed, Committed, OpenOk, Attached;
    if id in s.completes {
      OwnBefore(sha, s, id);
      CompleteStepFramed(sha, s, step, id, s.completes[id].upload.bucket);
      CompleteStepOwn(sha, s, step, id);
      FramedSafe(sha, s, CompleteStep(sha, s, step), id, s.completes[id].upload.bucket);
    } else {
      IdleComplete(sha, s, step, id);
    }
  }

  lemma IdleComplete(sha: Bytes -> string, s: Sys, step: Step, id: UUID)
    requires step.CreateFinal? || step.CopyPiece? || step.NextChunk? || step.ChunkMissing? || step.EndCopy?
             || step.HashPiece? || step.EndHash?
    requires id == step.id && id !in s.completes
    ensures CompleteStep(sha, s, step) == s
  {
  }

  lemma BeginSafe(sha: Bytes -> string, s: Sys, request: CompleteInput)
    requires Safe(sha, s)
    ensures Safe(sha, CompleteStep(sha, s, BeginComplete(request)))
  {
    hide PlainBucket, BlobObject, FinalObject, EqualFold, Sort;
    var r, id := CompleteStep(sha, s, BeginComplete(request)), request.uploadId;
    if r != s {
      assert OpenOk(s, id);
      FramedSafe(sha, s, r, id, s.sessions[id].bucket);
    }
  }

  lemma PromoteStepFramed(s: Sys, step: Step, id: UUID)
    requires step.MoveFinal? || step.MoveFails? || step.Commit? || step.Mark? || step.Clean? || step.Die?
    requires id == step.id && id in s.completes
    ensures Framed(s, PromoteStep(s, step), id, s.completes[id].upload.bucket)
  {
    hide PromoteStep, Framed;
    if step.MoveFinal? || step.MoveFails? {
      MoveStepFramed(s, step, id);
    } else if step.Mark? {
      MarkStepFramed(s, step, id);
    } else if step.Commit? {
      CommitStepFramed(s, step, id);
    } else {
      EndStepFramed(s, step, id);
    }
  }

  lemma MoveStepFramed(s: Sys, step: Step, id: UUID)
    requires (step.MoveFinal? || step.MoveFails?) && id == step.id && id in s.completes
    ensures Framed(s, PromoteStep(s, step), id, s.completes[id].upload.bucket)
  {
    hide BlobObject, FinalObject, FilesFramed, WithoutTree;
    var bucket := s.completes[id].upload.bucket;
    FrameFinal(s.files, id, bucket);
    MapFramed(s.completes, id);
    if FinalObject(id) in s.files {
      FrameMove(s.files, id, bucket, s.files[FinalObject(id)]);
    }
  }

  lemma CommitStepFramed(s: Sys, step: Step, id: UUID)
    requires step.Commit? && id == step.id && id in s.completes
    ensures Framed(s, PromoteStep(s, step), id, s.completes[id].upload.bucket)
  {
    hide BlobObject, FinalObject, FilesFramed, WithoutTree;
    FrameFinal(s.files, id, s.completes[id].upload.bucket);
    AllFramed(s, id);
  }

  lemma MarkStepFramed(s: Sys, step: Step, id: UUID)
    requires step.Mark? && id == step.id && id in s.completes
    ensures Framed(s, PromoteStep(s, step), id, s.completes[id].upload.bucket)
  {
    hide BlobObject, FinalObject, FilesFramed, WithoutTree;
    FrameFinal(s.files, id, s.completes[id].upload.bucket);
    MapFramed(s.completes, id);
    MapFramed(s.sessions, id);
  }

  lemma EndStepFramed(s: Sys, step: Step, id: UUID)
    requires step.Clean? || step.Die?
    requires id == step.id && id in s.completes
    ensures Framed(s, PromoteStep(s, step), id, s.completes[id].upload.bucket)
  {
    hide BlobObject, FinalObject, FilesFramed, WithoutTree;
    FrameFinal(s.files, id, s.completes[id].upload.bucket);
    MapFramed(s.completes, id);
  }

  lemma PromoteStepOwn(sha: Bytes -> string, s: Sys, step: Step, id: UUID)
    requires step.MoveFinal? || step.MoveFails? || step.Commit? || step.Mark? || step.Clean? || step.Die?
    requires id == step.id && id in s.completes && OwnOk(sha, s, id) && Allowed(s, step)
    ensures OwnOk(sha, PromoteStep(s, step), id)
  {
    hide PlainBucket, BlobObject, FinalObject, EqualFold;
    FinalIsOwn(id);
    var bucket := s.completes[id].upload.bucket;
    Apart(bucket, id, bucket, id, 0);
    if id in s.rows {
      Apart(s.rows[id].bucket, id, bucket, id, 0);
    }
  }

  lemma PromoteStepSafe(sha: Bytes -> string, s: Sys, step: Step, id: UUID)
    requires Safe(sha, s) && Allowed(s, step)
    requires step.MoveFinal? || step.MoveFails? || step.Commit? || step.Mark? || step.Clean? || step.Die?
    requires id == step.id
    ensures Safe(sha, PromoteStep(s, step))
  {
    hide PlainBucket, PromoteStep, Framed, Committed, OpenOk, Attached, Allowed;
    if id in s.completes {
      OwnBefore(sha, s, id);
      PromoteStepFramed(s, step, id);
      PromoteStepOwn(sha, s, step, id);
      FramedSafe(sha, s, PromoteStep(s, step), id, s.completes[id].upload.bucket);
    } else {
      IdlePromote(s, step, id);
    }
  }

  lemma IdlePromote(s: Sys, step: Step, id: UUID)
    requires step.MoveFinal? || step.MoveFails? || step.Commit? || step.Mark? || step.Clean? || step.Die?
    requires id == step.id && id !in s.completes
    ensures PromoteStep(s, step) == s
  {
    assert s.completes - {id} == s.completes;
  }

  lemma SessionStepFramed(s: Sys, step: Step, id: UUID, bucket: string)
    requires step.OpenSession? || step.CleanupTree? || step.CleanupSession?
    requires id == step.id
    ensures Framed(s, SessionStep(s, step), id, bucket)
  {
    hide PlainBucket, BlobObject, FilesFramed, WithoutTree;
    FrameFinal(s.files, id, bucket);
    AllFramed(s, id);
  }

  lemma SessionStepOwn(sha: Bytes -> string, s: Sys, step: Step, id: UUID)
    requires step.OpenSession? || step.CleanupTree? || step.CleanupSession?
    requires id == step.id && OwnOk(sha, s, id) && Allowed(s, step)
    ensures OwnOk(sha, SessionStep(s, step), id)
  {
    hide PlainBucket, BlobObject, FinalObject, EqualFold;
    FinalIsOwn(id);
    if id in s.rows {
      Apart(s.rows[id].bucket, id, s.rows[id].bucket, id, 0);
    }
    if id in s.completes {
      var bucket := s.completes[id].upload.bucket;
      Apart(bucket, id, bucket, id, 0);
    }
  }

  lemma SessionStepSafe(sha: Bytes -> string, s: Sys, step: Step, id: UUID)
    requires Safe(sha, s) && Allowed(s, step)
    requires step.OpenSession? || step.CleanupTree? || step.CleanupSession?
    requires id == step.id
    ensures Safe(sha, SessionStep(s, step))
  {
    hide PlainBucket, Framed, Committed, InFlight, Attached;
    OwnBefore(sha, s, id);
    if SessionStep(s, step) != s {
      APlainBucket();
      var bucket := if id in s.sessions then s.sessions[id].bucket
        else if step.OpenSession? then step.upload.bucket else "b";
      SessionStepFramed(s, step, id, bucket);
      SessionStepOwn(sha, s, step, id);
      FramedSafe(sha, s, SessionStep(s, step), id, bucket);
    }
  }

  lemma APlainBucket()
    ensures PlainBucket("b")
  {
    SplitNone("b", '/');
  }

  lemma StepSafe(sha: Bytes -> string, s: Sys, step: Step)
    requires Safe(sha, s) && Allowed(s, step)
    ensures Safe(sha, Apply(sha, s, step))
  {
    hide Safe, Allowed, ChunkStep, CompleteStep, PromoteStep, SessionStep;
    match step
    case BeginChunk(_, _) => ChunkStepSafe(sha, s, step);
    case CreateChunk(_) => ChunkStepSafe(sha, s, step);
    case WriteChunk(_, _, _) => ChunkStepSafe(sha, s, step);
    case EndChunk(_) => ChunkStepSafe(sha, s, step);
    case AcceptChunk(_) => ChunkStepSafe(sha, s, step);
    case RejectChunk(_) => ChunkStepSafe(sha, s, step);
    case RecordChunk(_) => ChunkStepSafe(sha, s, step);
    case AbortChunk(_) => ChunkStepSafe(sha, s, step);
    case OpenSession(id, _) => SessionStepSafe(sha, s, step, id);
    case CleanupTree(id) => SessionStepSafe(sha, s, step, id);
    case CleanupSession(id) => SessionStepSafe(sha, s, step, id);
    case MoveFinal(id) => PromoteStepSafe(sha, s, step, id);
    case MoveFails(id) => PromoteStepSafe(sha, s, step, id);
    case Commit(id, _) => PromoteStepSafe(sha, s, step, id);
    case Mark(id) => PromoteStepSafe(sha, s, step, id);
    case Clean(id) => PromoteStepSafe(sha, s, step, id);
    case Die(id) => PromoteStepSafe(sha, s, step, id);
    case BeginComplete(request) => BeginSafe(sha, s, request);
    case _ => CompleteStepSafe(sha, s, step, step.id);
  }

  lemma {:induction false} RunSafe(sha: Bytes -> string, s: Sys, steps: seq<Step>, end: Sys)
    requires Safe(sha, s) && Interleaved(sha, s, steps, end)
    ensures Safe(sha, end)
    decreases |steps|
  {
    hide Safe, Allowed, Apply;
    if steps != [] {
      StepSafe(sha, s, steps[0]);
      RunSafe(sha, Apply(sha, s, steps[0]), steps[1..], end);
    }
  }

  /** The client asked for this completion, with this final hash. */
  ghost predicate Asked(steps: seq<Step>, id: UUID, hash: string) {
    exists r: CompleteInput :: BeginComplete(r) in steps && r.uploadId == id && r.finalHash == hash
  }

  /** Completions in flight and committed blobs have the hashes their clients sent. */
  ghost predicate AllAsked(steps: seq<Step>, s: Sys) {
    && (forall id :: id in s.completes ==> Asked(steps, id, s.completes[id].finalHash))
    && (forall id :: id in s.promised ==> Asked(steps, id, s.promised[id]))
  }

  lemma AskedBefore(steps: seq<Step>, step: Step, id: UUID, hash: string)
    requires Asked(steps, id, hash)
    ensures Asked(steps + [step], id, hash)
  {
    var r: CompleteInput :| BeginComplete(r) in steps && r.uploadId == id && r.finalHash == hash;
    assert BeginComplete(r) in steps + [step];
  }

  lemma StepAsked(sha: Bytes -> string, before: seq<Step>, s: Sys, step: Step)
    requires AllAsked(before, s)
    ensures AllAsked(before + [step], Apply(sha, s, step))
  {
    hide Asked, Apply;
    var r := Apply(sha, s, step);
    StepHashes(sha, s, step);
    forall id | id in r.completes ensures Asked(before + [step], id, r.completes[id].finalHash) {
      if id in s.completes && r.completes[id].finalHash == s.completes[id].finalHash {
        AskedBefore(before, step, id, s.completes[id].finalHash);
      } else {
        AskedNow(before, step);
      }
    }
    forall id | id in r.promised ensures Asked(before + [step], id, r.promised[id]) {
      if id in s.promised && r.promised[id] == s.promised[id] {
        AskedBefore(before, step, id, s.promised[id]);
      } else {
        AskedBefore(before, step, id, s.completes[id].finalHash);
      }
    }
  }

  lemma AskedNow(before: seq<Step>, step: Step)
    requires step.BeginComplete?
    ensures Asked(before + [step], step.completion.uploadId, step.completion.finalHash)
  {
    assert BeginComplete(step.completion) in before + [step];
  }

  /** Final hashes come from requests and go from completions to blobs. */
  ghost predicate HashesFlow(s: Sys, r: Sys, step: Step) {
    && (forall id :: id in r.completes ==>
          || (id in s.completes && r.completes[id].finalHash == s.completes[id].finalHash)
          || (step.BeginComplete? && id == step.completion.uploadId
              && r.completes[id].finalHash == step.completion.finalHash))
    && (forall id :: id in r.promised ==>
          || (id in s.promised && r.promised[id] == s.promised[id])
          || (id in s.completes && r.promised[id] == s.completes[id].finalHash))
  }

  lemma StepHashes(sha: Bytes -> string, s: Sys, step: Step)
    ensures HashesFlow(s, Apply(sha, s, step), step)
  {
    hide ChunkStep, CompleteStep, PromoteStep, SessionStep, HashesFlow;
    ChunkHashes(sha, s, step);
    CompleteHashes(sha, s, step);
    PromoteHashes(s, step);
    SessionHashes(s, step);
  }

  lemma ChunkHashes(sha: Bytes -> string, s: Sys, step: Step)
    ensures HashesFlow(s, ChunkStep(sha, s, step), step)
  {
    hide ChunkStep;
    ChunkStepTables(sha, s, step);
  }

  lemma CompleteHashes(sha: Bytes -> string, s: Sys, step: Step)
    ensures HashesFlow(s, CompleteStep(sha, s, step), step)
  {
    hide CompleteStep, HashesFlow;
    if step.HashPiece? || step.EndHash? {
      HashingHashes(sha, s, step);
    } else if step.BeginComplete? {
      BeginHashes(sha, s, step);
    } else {
      CopyingHashes(sha, s, step);
    }
  }

  lemma HashingHashes(sha: Bytes -> string, s: Sys, step: Step)
    requires step.HashPiece? || step.EndHash?
    ensures HashesFlow(s, CompleteStep(sha, s, step), step)
  {
    hide EqualFold, FinalObject, Sort;
  }

  lemma BeginHashes(sha: Bytes -> string, s: Sys, step: Step)
    requires step.BeginComplete?
    ensures HashesFlow(s, CompleteStep(sha, s, step), step)
  {
    hide EqualFold, FinalObject, Sort;
  }

  lemma CopyingHashes(sha: Bytes -> string, s: Sys, step: Step)
    requires !step.HashPiece? && !step.EndHash? && !step.BeginComplete?
    ensures HashesFlow(s, CompleteStep(sha, s, step), step)
  {
    hide EqualFold, FinalObject, Sort;
  }

  lemma PromoteHashes(s: Sys, step: Step)
    ensures HashesFlow(s, PromoteStep(s, step), step)
  {
    hide WithoutTree, BlobObject, FinalObject;
  }

  lemma SessionHashes(s: Sys, step: Step)
    ensures HashesFlow(s, SessionStep(s, step), step)
  {
    hide WithoutTree;
  }

  lemma {:induction false} RunAsked(sha: Bytes -> string, before: seq<Step>, s: Sys, steps: seq<Step>, end: Sys)
    requires AllAsked(before, s) && Interleaved(sha, s, steps, end)
    ensures AllAsked(before + steps, end)
    decreases |steps|
  {
    hide AllAsked, Allowed, Apply;
    if steps == [] {
      assert before + steps == before;
    } else {
      StepAsked(sha, before, s, steps[0]);
      RunAsked(sha, before + [steps[0]], Apply(sha, s, steps[0]), steps[1..], end);
      assert before + [steps[0]] + steps[1..] == before + steps;
    }
  }

  /** In every interleaving, a committed multipart blob is stored, its bytes hash to its row's
      hash and to the final hash its client sent; so under a collision-free hash it is the
      very file that hash was taken of. */
  lemma CommittedBlobsIntact(sha: Bytes -> string, steps: seq<Step>, end: Sys, id: UUID)
    requires Interleaved(sha, IDLE, steps, end) && id in end.rows
    ensures var at := BlobObject(end.rows[id].bucket, id);
      && at in end.files && id in end.promised && Asked(steps, id, end.promised[id])
      && sha(end.files[at]) == end.rows[id].hash && EqualFold(sha(end.files[at]), end.promised[id])
      && (PrintsHex(sha) ==> Spells(end.promised[id], sha(end.files[at])))
      && forall file :: CollisionFree(sha) && EqualFold(sha(file), end.promised[id]) ==> end.files[at] == file
  {
    hide Interleaved, PlainBucket, BlobObject, Spells, EqualFold, Asked;
    RunSafe(sha, IDLE, steps, end);
    RunAsked(sha, [], IDLE, steps, end);
    assert [] + steps == steps;
    assert Committed(sha, end, id);
    var at := BlobObject(end.rows[id].bucket, id);
    if PrintsHex(sha) {
      FoldsIff(sha(end.files[at]), end.promised[id]);
    }
    forall file | CollisionFree(sha) && EqualFold(sha(file), end.promised[id]) ensures end.files[at] == file {
      FoldsThrough(sha(file), end.promised[id], sha(end.files[at]));
    }
  }

  /** Strangers, requests for a marked session, and requests without a hash or without chunks begin
      nothing. */
  lemma TurnedAway(sha: Bytes -> string, s: Sys, task: nat, chunk: ChunkInput, complete: CompleteInput)
    ensures Apply(sha, s, BeginChunk(task, chunk)) != s ==>
      && chunk.uploadId in s.sessions && chunk.hash != ""
      && s.sessions[chunk.uploadId].owner == chunk.userId && !s.sessions[chunk.uploadId].completed
    ensures Apply(sha, s, BeginComplete(complete)) != s ==>
      && complete.uploadId in s.sessions && complete.finalHash != ""
      && s.sessions[complete.uploadId].owner == complete.userId && !s.sessions[complete.uploadId].completed
      && s.sessions[complete.uploadId].chunksDone != []
  {
  }

  /** No step changes a row or removes one. */
  lemma RowsStay(sha: Bytes -> string, s: Sys, step: Step)
    ensures var r := Apply(sha, s, step); forall id :: id in s.rows ==> id in r.rows && r.rows[id] == s.rows[id]
  {
    hide ChunkStep, CompleteStep, PromoteStep, SessionStep;
    ChunkStepTables(sha, s, step);
    CompleteKeepsRows(sha, s, step);
    PromoteKeepsRows(s, step);
    SessionKeepsRows(s, step);
  }

  lemma CompleteKeepsRows(sha: Bytes -> string, s: Sys, step: Step)
    ensures CompleteStep(sha, s, step).rows == s.rows && CompleteStep(sha, s, step).chunks == s.chunks
  {
    hide CompleteStep;
    if step.HashPiece? || step.EndHash? {
      HashingKeepsRows(sha, s, step);
    } else {
      CopyingKeepsRows(sha, s, step);
    }
  }

  lemma HashingKeepsRows(sha: Bytes -> string, s: Sys, step: Step)
    requires step.HashPiece? || step.EndHash?
    ensures CompleteStep(sha, s, step).rows == s.rows && CompleteStep(sha, s, step).chunks == s.chunks
  {
    hide EqualFold, FinalObject;
  }

  lemma CopyingKeepsRows(sha: Bytes -> string, s: Sys, step: Step)
    requires !step.HashPiece? && !step.EndHash?
    ensures CompleteStep(sha, s, step).rows == s.rows && CompleteStep(sha, s, step).chunks == s.chunks
  {
    hide FinalObject, Sort;
  }

  lemma PromoteKeepsRows(s: Sys, step: Step)
    ensures var r := PromoteStep(s, step); forall id :: id in s.rows ==> id in r.rows && r.rows[id] == s.rows[id]
  {
    hide WithoutTree, BlobObject, FinalObject;
  }

  lemma SessionKeepsRows(s: Sys, step: Step)
    ensures SessionStep(s, step).rows == s.rows
  {
    hide WithoutTree;
  }

  /** A chunk request about to record its index has sent bytes with the hash it announced. */
  ghost predicate Checked(sha: Bytes -> string, s: Sys) {
    forall task :: task in s.chunks && s.chunks[task].stage == ToRecord ==>
      EqualFold(sha(s.chunks[task].request.body), s.chunks[task].request.hash)
  }

  lemma ChunkStepChecked(sha: Bytes -> string, s: Sys, step: Step)
    requires Checked(sha, s)
    ensures Checked(sha, ChunkStep(sha, s, step))
  {
    hide EqualFold, Splice, ChunkObject;
  }

  /** The other requests touch no chunk request. */
  lemma OthersLeaveTasks(sha: Bytes -> string, s: Sys, step: Step)
    ensures CompleteStep(sha, s, step).chunks == s.chunks
    ensures PromoteStep(s, step).chunks == s.chunks && SessionStep(s, step).chunks == s.chunks
  {
    hide CompleteStep, FinalObject, WithoutTree, BlobObject;
    CompleteKeepsRows(sha, s, step);
  }

  /** In every interleaving, only chunks whose bytes had the announced hash are recorded. */
  lemma {:induction false} RunChecked(sha: Bytes -> string, s: Sys, steps: seq<Step>, end: Sys)
    requires Checked(sha, s) && Interleaved(sha, s, steps, end)
    ensures Checked(sha, end)
    decreases |steps|
  {
    hide ChunkStep, CompleteStep, PromoteStep, SessionStep, Allowed, EqualFold;
    if steps != [] {
      ChunkStepChecked(sha, s, steps[0]);
      OthersLeaveTasks(sha, s, steps[0]);
      RunChecked(sha, Apply(sha, s, steps[0]), steps[1..], end);
    }
  }

  lemma FoldsThrough(a: string, b: string, c: string)
    requires EqualFold(a, b) && EqualFold(c, b)
    ensures EqualFold(c, a)
  {
  }

  // ---------- what the hypotheses are for ----------

  lemma {:induction false} Extend(sha: Bytes -> string, s: Sys, steps: seq<Step>, mid: Sys, step: Step)
    requires Interleaved(sha, s, steps, mid) && Allowed(mid, step)
    ensures Interleaved(sha, s, steps + [step], Apply(sha, mid, step))
    decreases |steps|
  {
    hide Allowed, Apply;
    if steps == [] {
      assert steps + [step] == [step];
      assert Interleaved(sha, Apply(sha, mid, step), [], Apply(sha, mid, step));
    } else {
      assert (steps + [step])[1..] == steps[1..] + [step];
      Extend(sha, Apply(sha, s, steps[0]), steps[1..], mid, step);
    }
  }

  /** A chunk request run alone from its creation to its acceptance stores its body. */
  lemma ChunkAlone(sha: Bytes -> string, s: Sys, steps: seq<Step>, mid: Sys, task: nat) returns (more: seq<Step>,
      end: Sys)
    requires Interleaved(sha, s, steps, mid)
    requires task in mid.chunks && mid.chunks[task].stage == ToCreate
    requires EqualFold(sha(mid.chunks[task].request.body), mid.chunks[task].request.hash)
    ensures Interleaved(sha, s, more, end)
    ensures var r := mid.chunks[task].request;
      end == mid.(files := mid.files[ChunkObject(r.uploadId, r.index) := r.body],
                  chunks := mid.chunks[task := mid.chunks[task].(stage := ToRecord)])
  {
    hide Interleaved, ChunkObject, EqualFold, CompleteStep, PromoteStep, SessionStep;
    var stored, s2 := PutAlone(sha, s, steps, mid, task);
    var s3 := Apply(sha, s2, EndChunk(task));
    Extend(sha, s, stored, s2, EndChunk(task));
    end := Apply(sha, s3, AcceptChunk(task));
    Extend(sha, s, stored + [EndChunk(task)], s3, AcceptChunk(task));
    more := stored + [EndChunk(task)] + [AcceptChunk(task)];
  }

  lemma PutAlone(sha: Bytes -> string, s: Sys, steps: seq<Step>, mid: Sys, task: nat) returns (more: seq<Step>,
      end: Sys)
    requires Interleaved(sha, s, steps, mid)
    requires task in mid.chunks && mid.chunks[task].stage == ToCreate
    ensures Interleaved(sha, s, more, end)
    ensures var r := mid.chunks[task].request;
      end == mid.(files := mid.files[ChunkObject(r.uploadId, r.index) := r.body],
                  chunks := mid.chunks[task := mid.chunks[task].(stage := Writing(|r.body|))])
  {
    hide Interleaved, ChunkObject, EqualFold, CompleteStep, PromoteStep, SessionStep;
    var r := mid.chunks[task].request;
    var s1 := Apply(sha, mid, CreateChunk(task));
    Extend(sha, s, steps, mid, CreateChunk(task));
    var write := WriteChunk(task, |r.body|, true);
    end := Apply(sha, s1, write);
    Extend(sha, s, steps + [CreateChunk(task)], s1, write);
    more := steps + [CreateChunk(task)] + [write];
    assert Splice([], 0, r.body) == r.body && r.body[0..0 + |r.body|] == r.body;
  }

  /** List updates can be lost: two requests that read the list before either records leave
      both chunks stored but only the second recorded. A Complete that then copies what is
      recorded is turned away by the hash check, and nothing is committed. */
  lemma LostUpdate(sha: Bytes -> string, id: UUID, upload: Session, a: Bytes, b: Bytes)
      returns (steps: seq<Step>, end: Sys, failed: seq<Step>, last: Sys)
    requires PlainBucket(upload.bucket) && !upload.completed && upload.chunksDone == []
    requires sha(a) != "" && sha(b) != "" && sha(a + b) != "" && !EqualFold(sha(b), sha(a + b))
    ensures Interleaved(sha, IDLE, steps, end) && Interleaved(sha, IDLE, failed, last)
    ensures id in end.sessions && end.sessions[id].chunksDone == [1]
    ensures var at := ChunkObject(id, 0); at in end.files && end.files[at] == a
    ensures var at := ChunkObject(id, 1); at in end.files && end.files[at] == b
    ensures steps <= failed && last.rows == map[] && last.completes == map[]
  {
    hide Interleaved, ChunkObject, EqualFold, Sort, PlainBucket;
    ChunksDistinct(id, 0, 1);
    var ra, rb := ChunkInput(id, upload.owner, 0, sha(a), a), ChunkInput(id, upload.owner, 1, sha(b), b);
    var s0 := IDLE;
    assert Interleaved(sha, IDLE, [], IDLE) by { InterleavedNone(sha, IDLE); }
    var s1 := Apply(sha, s0, OpenSession(id, upload));
    Extend(sha, IDLE, [], s0, OpenSession(id, upload));
    var s2 := Apply(sha, s1, BeginChunk(0, ra));
    Extend(sha, IDLE, [] + [OpenSession(id, upload)], s1, BeginChunk(0, ra));
    var s3 := Apply(sha, s2, BeginChunk(1, rb));
    Extend(sha, IDLE, [] + [OpenSession(id, upload)] + [BeginChunk(0, ra)], s2, BeginChunk(1, rb));
    steps := [] + [OpenSession(id, upload)] + [BeginChunk(0, ra)] + [BeginChunk(1, rb)];
    SelfEqual(sha(a));
    SelfEqual(sha(b));
    var s4: Sys;
    steps, s4 := ChunkAlone(sha, IDLE, steps, s3, 0);
    steps, end := ChunkAlone(sha, IDLE, steps, s4, 1);
    steps, end := RecordBoth(sha, IDLE, steps, end, id);
    failed, last := CompleteTurnedAway(sha, IDLE, steps, end, id, b, sha(a + b));
  }

  lemma InterleavedNone(sha: Bytes -> string, s: Sys)
    ensures Interleaved(sha, s, [], s)
  {
  }

  lemma SelfEqual(s: string)
    ensures EqualFold(s, s)
  {
  }

  lemma RecordBoth(sha: Bytes -> string, s: Sys, steps: seq<Step>, mid: Sys, id: UUID) returns (more: seq<Step>,
      end: Sys)
    requires Interleaved(sha, s, steps, mid) && id in mid.sessions && mid.chunks.Keys == {0, 1}
    requires forall t: nat :: t in mid.chunks ==>
      mid.chunks[t].stage == ToRecord && mid.chunks[t].snapshot == []
      && mid.chunks[t].request.uploadId == id && mid.chunks[t].request.index == t
    ensures Interleaved(sha, s, more, end)
    ensures end == mid.(sessions := mid.sessions[id := mid.sessions[id].(chunksDone := [1])], chunks := map[])
  {
    hide Interleaved, CompleteStep, PromoteStep, SessionStep, ChunkObject, Splice, EqualFold;
    assert 0 in mid.chunks && 1 in mid.chunks;
    var s1 := Apply(sha, mid, RecordChunk(0));
    Extend(sha, s, steps, mid, RecordChunk(0));
    end := Apply(sha, s1, RecordChunk(1));
    Extend(sha, s, steps + [RecordChunk(0)], s1, RecordChunk(1));
    more := steps + [RecordChunk(0)] + [RecordChunk(1)];
    assert [] + [1] == [1];
    assert mid.chunks - {0} - {1} == map[];
    assert end.sessions == mid.sessions[id := mid.sessions[id].(chunksDone := [1])];
  }

  /** A Complete whose assembled bytes do not have the final hash gives up. */
  lemma CompleteTurnedAway(sha: Bytes -> string, s: Sys, steps: seq<Step>, mid: Sys, id: UUID, piece: Bytes,
      finalHash: string)
      returns (more: seq<Step>, end: Sys)
    requires Interleaved(sha, s, steps, mid) && id in mid.sessions && id !in mid.completes
    requires !mid.sessions[id].completed
    requires mid.sessions[id].chunksDone == [1] && finalHash != "" && !EqualFold(sha(piece), finalHash)
    ensures Interleaved(sha, s, more, end) && steps <= more
    ensures end.rows == mid.rows && end.completes == mid.completes
  {
    hide Interleaved, EqualFold, FinalObject, ChunkStep, PromoteStep, SessionStep;
    var begin := BeginComplete(CompleteInput(id, mid.sessions[id].owner, finalHash));
    assert Sort([1]) == [1] by {
      assert [1][1..] == [];
    }
    var task := CompleteTask(mid.sessions[id], finalHash, [1], Starting);
    var s1 := Apply(sha, mid, begin);
    assert s1 == mid.(completes := mid.completes[id := task]);
    Extend(sha, s, steps, mid, begin);
    var copied, s2 := CopyAlone(sha, s, steps + [begin], s1, id, _ => piece);
    assert AllRead([1], _ => piece) == piece by { OneRead(1, _ => piece); }
    more, end := HashedAway(sha, s, copied, s2, id, piece);
    assert steps <= steps + [begin];
    assert mid.completes[id := s2.completes[id]] - {id} == mid.completes;
  }

  /** The bodies sent for these indices, one after the other. */
  function AllRead(indices: seq<int>, body: int -> Bytes): Bytes {
    if indices == [] then [] else body(indices[0]) + AllRead(indices[1..], body)
  }

  lemma NothingRead(body: int -> Bytes)
    ensures AllRead([], body) == []
  {
  }

  lemma OneRead(index: int, body: int -> Bytes)
    ensures AllRead([index], body) == body(index)
  {
    assert [index][1..] == [];
  }

  /** A Complete run alone that reads these bodies copies them one after the other. */
  lemma CopyAlone(sha: Bytes -> string, s: Sys, steps: seq<Step>, mid: Sys, id: UUID, body: int -> Bytes)
      returns (more: seq<Step>, end: Sys)
    requires Interleaved(sha, s, steps, mid) && id in mid.completes && mid.completes[id].stage == Starting
    ensures Interleaved(sha, s, more, end) && steps <= more
    ensures var whole := AllRead(mid.completes[id].order, body);
      end == SetStage(mid.(files := mid.files[FinalObject(id) := whole]), id, Hashing([]))
  {
    hide Interleaved, FinalObject, Apply, AllRead;
    var order := mid.completes[id].order;
    var s1 := Apply(sha, mid, CreateFinal(id));
    Extend(sha, s, steps, mid, CreateFinal(id));
    CopyStarts(sha, mid, id);
    var copied, s2 := CopyRest(sha, s, steps + [CreateFinal(id)], s1, id, 0, body);
    assert order[0..] == order && [] + AllRead(order, body) == AllRead(order, body);
    StageTwice(mid, id, FinalObject(id), [], AllRead(order, body), Copying(0), Copying(|order|));
    end := Apply(sha, s2, EndCopy(id));
    Extend(sha, s, copied, s2, EndCopy(id));
    CopyEnds(sha, s2, id);
    StageTwice(mid, id, FinalObject(id), AllRead(order, body), AllRead(order, body), Copying(|order|), Hashing([]));
    more := copied + [EndCopy(id)];
    assert steps <= copied <= more;
  }

  lemma CopyStarts(sha: Bytes -> string, s: Sys, id: UUID)
    requires id in s.completes && s.completes[id].stage == Starting
    ensures Apply(sha, s, CreateFinal(id)) == SetStage(s.(files := s.files[FinalObject(id) := []]), id, Copying(0))
  {
    hide FinalObject;
  }

  lemma CopyEnds(sha: Bytes -> string, s: Sys, id: UUID)
    requires id in s.completes && s.completes[id].stage == Copying(|s.completes[id].order|)
    requires FinalObject(id) in s.files
    ensures var final := FinalObject(id);
      Apply(sha, s, EndCopy(id)) == SetStage(s.(files := s.files[final := s.files[final]]), id, Hashing([]))
  {
    hide FinalObject;
    assert s.files[FinalObject(id) := s.files[FinalObject(id)]] == s.files;
  }

  /** The copy loop from its k-th chunk on. */
  lemma {:induction false} CopyRest(sha: Bytes -> string, s: Sys, steps: seq<Step>, mid: Sys, id: UUID, k: nat,
      body: int -> Bytes) returns (more: seq<Step>, end: Sys)
    requires Interleaved(sha, s, steps, mid) && id in mid.completes && FinalObject(id) in mid.files
    requires mid.completes[id].stage == Copying(k) && k <= |mid.completes[id].order|
    ensures Interleaved(sha, s, more, end) && steps <= more
    ensures var order, final := mid.completes[id].order, FinalObject(id);
      var copied := mid.files[final] + AllRead(order[k..], body);
      end == SetStage(mid.(files := mid.files[final := copied]), id, Copying(|order|))
    decreases |mid.completes[id].order| - k
  {
    hide Interleaved, FinalObject, Apply, AllRead;
    var order, final := mid.completes[id].order, FinalObject(id);
    if k == |order| {
      more, end := steps, mid;
      NothingRead(body);
      assert order[k..] == [];
      assert mid.files[final] + [] == mid.files[final];
      assert mid.files[final := mid.files[final]] == mid.files;
      assert mid.completes[id := mid.completes[id].(stage := Copying(k))] == mid.completes;
    } else {
      var stepped, s1 := CopyOne(sha, s, steps, mid, id, k, body(order[k]));
      more, end := CopyRest(sha, s, stepped, s1, id, k + 1, body);
      ReadFrom(order, k, body, mid.files[final]);
      StageTwice(mid, id, final, mid.files[final] + body(order[k]), mid.files[final] + AllRead(order[k..], body),
                 Copying(k + 1), Copying(|order|));
    }
  }

  lemma ReadFrom(order: seq<int>, k: nat, body: int -> Bytes, before: Bytes)
    requires k < |order|
    ensures before + body(order[k]) + AllRead(order[k + 1..], body) == before + AllRead(order[k..], body)
  {
    assert order[k..][0] == order[k] && order[k..][1..] == order[k + 1..];
  }

  lemma StageTwice(s: Sys, id: UUID, f: Path, a: Bytes, b: Bytes, x: CompleteStage, y: CompleteStage)
    requires id in s.completes
    ensures var once := SetStage(s.(files := s.files[f := a]), id, x);
      SetStage(once.(files := once.files[f := b]), id, y) == SetStage(s.(files := s.files[f := b]), id, y)
  {
    assert s.files[f := a][f := b] == s.files[f := b];
    var t := s.completes[id];
    assert s.completes[id := t.(stage := x)][id := t.(stage := y)] == s.completes[id := t.(stage := y)];
  }

  lemma CopyOne(sha: Bytes -> string, s: Sys, steps: seq<Step>, mid: Sys, id: UUID, k: nat, piece: Bytes)
      returns (more: seq<Step>, end: Sys)
    requires Interleaved(sha, s, steps, mid) && id in mid.completes && FinalObject(id) in mid.files
    requires mid.completes[id].stage == Copying(k) && k < |mid.completes[id].order|
    ensures Interleaved(sha, s, more, end) && steps <= more
    ensures var final := FinalObject(id);
      end == SetStage(mid.(files := mid.files[final := mid.files[final] + piece]), id, Copying(k + 1))
  {
    hide Interleaved, FinalObject, ChunkStep, PromoteStep, SessionStep, EqualFold, Sort;
    var s1 := Apply(sha, mid, CopyPiece(id, piece));
    Extend(sha, s, steps, mid, CopyPiece(id, piece));
    end := Apply(sha, s1, NextChunk(id));
    Extend(sha, s, steps + [CopyPiece(id, piece)], s1, NextChunk(id));
    more := steps + [CopyPiece(id, piece)] + [NextChunk(id)];
  }

  /** The hash check gives up on other bytes than promised. */
  lemma HashedAway(sha: Bytes -> string, s: Sys, steps: seq<Step>, mid: Sys, id: UUID, piece: Bytes)
      returns (more: seq<Step>, end: Sys)
    requires Interleaved(sha, s, steps, mid) && id in mid.completes && mid.completes[id].stage == Hashing([])
    requires FinalObject(id) in mid.files && mid.files[FinalObject(id)] == piece
    requires !EqualFold(sha(piece), mid.completes[id].finalHash)
    ensures Interleaved(sha, s, more, end) && steps <= more
    ensures end.rows == mid.rows && end.completes == mid.completes - {id}
  {
    hide Interleaved, FinalObject, EqualFold, ChunkStep, PromoteStep, SessionStep;
    var s1 := Apply(sha, mid, HashPiece(id, |piece|));
    Extend(sha, s, steps, mid, HashPiece(id, |piece|));
    assert [] + piece[0..0 + |piece|] == piece;
    assert s1 == SetStage(mid, id, Hashing(piece));
    end := Apply(sha, s1, EndHash(id));
    Extend(sha, s, steps + [HashPiece(id, |piece|)], s1, EndHash(id));
    more := steps + [HashPiece(id, |piece|)] + [EndHash(id)];
    assert mid.completes[id := s1.completes[id]] - {id} == mid.completes - {id};
  }

  /** A Complete run alone in which every chunk read holds what was sent for it, up to the row it
      is about to insert. */
  lemma CompleteAlone(sha: Bytes -> string, s: Sys, steps: seq<Step>, mid: Sys, id: UUID, body: int -> Bytes,
      finalHash: string)
      returns (more: seq<Step>, end: Sys)
    requires Interleaved(sha, s, steps, mid) && id in mid.sessions && id !in mid.completes
    requires !mid.sessions[id].completed && mid.sessions[id].chunksDone != [] && finalHash != ""
    requires AllHold(mid.files, id, Sort(mid.sessions[id].chunksDone), body)
    requires EqualFold(sha(AllRead(Sort(mid.sessions[id].chunksDone), body)), finalHash)
    ensures Interleaved(sha, s, more, end) && id in end.completes
    ensures var whole, upload := AllRead(Sort(mid.sessions[id].chunksDone), body), mid.sessions[id];
      && end.completes[id] == CompleteTask(upload, finalHash, Sort(upload.chunksDone), ToCommit(sha(whole)))
      && end.files == (mid.files[FinalObject(id) := whole] - {FinalObject(id)})[BlobObject(upload.bucket, id) := whole]
    ensures end.rows == mid.rows && end.sessions == mid.sessions && end.chunks == mid.chunks
    ensures end.promised == mid.promised
  {
    hide Interleaved, EqualFold, FinalObject, BlobObject, Sort, AllRead, AllHold;
    var order := Sort(mid.sessions[id].chunksDone);
    var begin := BeginComplete(CompleteInput(id, mid.sessions[id].owner, finalHash));
    var s1 := Apply(sha, mid, begin);
    assert s1 == mid.(completes := mid.completes[id := CompleteTask(mid.sessions[id], finalHash, order, Starting)]);
    Extend(sha, s, steps, mid, begin);
    var copied, s2 := CopyAlone(sha, s, steps + [begin], s1, id, body);
    more, end := PromoteAlone(sha, s, copied, s2, id, AllRead(order, body));
  }

  lemma PromoteAlone(sha: Bytes -> string, s: Sys, steps: seq<Step>, mid: Sys, id: UUID, piece: Bytes)
      returns (more: seq<Step>, end: Sys)
    requires Interleaved(sha, s, steps, mid) && id in mid.completes && mid.completes[id].stage == Hashing([])
    requires FinalObject(id) in mid.files && mid.files[FinalObject(id)] == piece
    requires EqualFold(sha(piece), mid.completes[id].finalHash)
    ensures Interleaved(sha, s, more, end)
    ensures var at := BlobObject(mid.completes[id].upload.bucket, id);
      end == SetStage(mid.(files := (mid.files - {FinalObject(id)})[at := piece]), id, ToCommit(sha(piece)))
  {
    hide Interleaved, FinalObject, EqualFold, BlobObject;
    var hashed, s2 := HashedAlone(sha, s, steps, mid, id, piece);
    end := Apply(sha, s2, MoveFinal(id));
    Extend(sha, s, hashed, s2, MoveFinal(id));
    more := hashed + [MoveFinal(id)];
  }

  lemma HashedAlone(sha: Bytes -> string, s: Sys, steps: seq<Step>, mid: Sys, id: UUID, piece: Bytes)
      returns (more: seq<Step>, end: Sys)
    requires Interleaved(sha, s, steps, mid) && id in mid.completes && mid.completes[id].stage == Hashing([])
    requires FinalObject(id) in mid.files && mid.files[FinalObject(id)] == piece
    requires EqualFold(sha(piece), mid.completes[id].finalHash)
    ensures Interleaved(sha, s, more, end)
    ensures end == SetStage(mid, id, ToMove(sha(piece)))
  {
    hide Interleaved, FinalObject, EqualFold, BlobObject, ChunkStep, PromoteStep, SessionStep;
    var s1 := Apply(sha, mid, HashPiece(id, |piece|));
    Extend(sha, s, steps, mid, HashPiece(id, |piece|));
    assert [] + piece[0..0 + |piece|] == piece;
    assert s1 == SetStage(mid, id, Hashing(piece));
    end := Apply(sha, s1, EndHash(id));
    Extend(sha, s, steps + [HashPiece(id, |piece|)], s1, EndHash(id));
    more := steps + [HashPiece(id, |piece|)] + [EndHash(id)];
    assert mid.completes[id := s1.completes[id]][id := end.completes[id]] == mid.completes[id := end.completes[id]];
  }

  lemma FreshTask(chunks: map<nat, ChunkTask>) returns (task: nat)
    ensures task !in chunks
  {
    task := Above(chunks.Keys);
  }

  /** A number above all of these. */
  lemma {:induction false} Above(taken: set<nat>) returns (n: nat)
    ensures forall m: nat :: m in taken ==> m < n
    decreases |taken|
  {
    if taken == {} {
      n := 0;
    } else {
      var last :| last in taken;
      var rest := Above(taken - {last});
      n := if rest > last then rest else last + 1;
      forall m: nat | m in taken ensures m < n {
        assert m == last || m in taken - {last};
      }
    }
  }

  /** A chunk request run alone, from the read of the list to its update. */
  lemma RequestAlone(sha: Bytes -> string, s: Sys, steps: seq<Step>, mid: Sys, id: UUID, index: int, body: Bytes)
      returns (more: seq<Step>, end: Sys)
    requires Interleaved(sha, s, steps, mid) && id in mid.sessions && !mid.sessions[id].completed && sha(body) != ""
    ensures Interleaved(sha, s, more, end)
    ensures var done := WithIndex(mid.sessions[id].chunksDone, index);
      end == mid.(files := mid.files[ChunkObject(id, index) := body],
                  sessions := mid.sessions[id := mid.sessions[id].(chunksDone := done)])
  {
    hide Interleaved, ChunkObject, EqualFold, CompleteStep, PromoteStep, SessionStep;
    var task := FreshTask(mid.chunks);
    var r := ChunkInput(id, mid.sessions[id].owner, index, sha(body), body);
    var s1 := Apply(sha, mid, BeginChunk(task, r));
    Extend(sha, s, steps, mid, BeginChunk(task, r));
    SelfEqual(sha(body));
    assert s1 == mid.(chunks := mid.chunks[task := ChunkTask(r, mid.sessions[id].chunksDone, ToCreate)]);
    var stored, s2 := ChunkAlone(sha, s, steps + [BeginChunk(task, r)], s1, task);
    end := Apply(sha, s2, RecordChunk(task));
    Extend(sha, s, stored, s2, RecordChunk(task));
    more := stored + [RecordChunk(task)];
    assert s2.chunks - {task} == mid.chunks;
    assert mid.sessions[id := mid.sessions[id]] == mid.sessions;
  }

  /** The objects of these chunks hold what was sent for them. */
  ghost predicate AllHold(files: Files, id: UUID, indices: seq<int>, body: int -> Bytes) {
    forall i :: i in indices ==> ChunkObject(id, i) in files && files[ChunkObject(id, i)] == body(i)
  }

  /** Sending every recorded chunk again, one after the other. */
  lemma {:induction false} RequestsAlone(sha: Bytes -> string, s: Sys, steps: seq<Step>, mid: Sys, id: UUID,
      body: int -> Bytes, n: nat) returns (more: seq<Step>, end: Sys)
    requires Interleaved(sha, s, steps, mid) && id in mid.sessions && !mid.sessions[id].completed
    requires n <= |mid.sessions[id].chunksDone|
    requires forall i :: i in mid.sessions[id].chunksDone ==> sha(body(i)) != ""
    ensures Interleaved(sha, s, more, end)
    ensures end == mid.(files := end.files) && AllHold(end.files, id, mid.sessions[id].chunksDone[..n], body)
    decreases n
  {
    hide Interleaved, ChunkObject;
    if n == 0 {
      more, end := steps, mid;
    } else {
      var done := mid.sessions[id].chunksDone;
      var before, s1 := RequestsAlone(sha, s, steps, mid, id, body, n - 1);
      more, end := RequestAlone(sha, s, before, s1, id, done[n - 1], body(done[n - 1]));
      assert mid.sessions[id := mid.sessions[id].(chunksDone := done)] == mid.sessions;
      forall i | i in done[..n] ensures ChunkObject(id, i) in end.files && end.files[ChunkObject(id, i)] == body(i) {
        ChunksDistinct(id, i, done[n - 1]);
      }
    }
  }

  /** There are runs up to the point between the row and the mark. */
  lemma CommittedAlone(sha: Bytes -> string, id: UUID, upload: Session, a: Bytes) returns (steps: seq<Step>, s: Sys)
    requires PlainBucket(upload.bucket) && !upload.completed && upload.chunksDone == [] && sha(a) != ""
    ensures Interleaved(sha, IDLE, steps, s)
    ensures Safe(sha, s) && Unmarked(s, id) && s.sessions[id] == upload.(chunksDone := [0])
  {
    hide Interleaved, EqualFold, BlobObject, FinalObject, ChunkObject, PlainBucket, Safe, Sort;
    InterleavedNone(sha, IDLE);
    var s1 := Apply(sha, IDLE, OpenSession(id, upload));
    Extend(sha, IDLE, [], IDLE, OpenSession(id, upload));
    SelfEqual(sha(a));
    var s2: Sys, s3: Sys;
    steps, s2 := RequestAlone(sha, IDLE, [] + [OpenSession(id, upload)], s1, id, 0, a);
    assert [] + [0] == [0];
    SortOne(0);
    OneRead(0, _ => a);
    steps, s3 := CompleteAlone(sha, IDLE, steps, s2, id, _ => a, sha(a));
    s := Apply(sha, s3, Commit(id, 0));
    Extend(sha, IDLE, steps, s3, Commit(id, 0));
    steps := steps + [Commit(id, 0)];
    EmptySafe(sha);
    RunSafe(sha, IDLE, steps, s);
  }

  lemma EmptySafe(sha: Bytes -> string)
    ensures Safe(sha, IDLE)
  {
  }

  lemma SortOne(i: int)
    ensures Sort([i]) == [i]
  {
    assert [i][1..] == [];
  }

  /** A Complete that dies does no harm, except between its row and its mark. From any state in
      order, a death at that point leaves the session open: the client sends its chunks again with
      other bytes and completes again, and the new bytes land under the old row, whatever bytes
      they are as long as they hash differently. */
  lemma DeathBeforeMark(sha: Bytes -> string, s: Sys, id: UUID, body: int -> Bytes)
      returns (after: seq<Step>, end: Sys)
    requires Safe(sha, s)
    ensures !Unmarked(s, id) ==> Safe(sha, Apply(sha, s, Die(id)))
    ensures Unmarked(s, id) && NewBytes(sha, s, id, body) ==>
      Interleaved(sha, Apply(sha, s, Die(id)), after, end) && id in end.rows && !Committed(sha, end, id)
  {
    hide Safe, Apply, Interleaved, Committed, NewBytes;
    var dead := Apply(sha, s, Die(id));
    if !Unmarked(s, id) {
      StepSafe(sha, s, Die(id));
      after, end := [], dead;
    } else if NewBytes(sha, s, id, body) {
      after, end := CompletedAgain(sha, s, id, body);
    } else {
      after, end := [], dead;
    }
  }

  /** What the client sends for the recorded chunks of a session that is a row already: bodies
      with a hash whose concatenation does not have the hash of the row. */
  ghost predicate NewBytes(sha: Bytes -> string, s: Sys, id: UUID, body: int -> Bytes) {
    && id in s.sessions && id in s.rows
    && (forall i :: i in s.sessions[id].chunksDone ==> sha(body(i)) != "")
    && sha(AllRead(Sort(s.sessions[id].chunksDone), body)) !in {"", s.rows[id].hash}
  }

  lemma CompletedAgain(sha: Bytes -> string, s: Sys, id: UUID, body: int -> Bytes)
      returns (after: seq<Step>, end: Sys)
    requires Safe(sha, s) && Unmarked(s, id) && NewBytes(sha, s, id, body)
    ensures Interleaved(sha, Apply(sha, s, Die(id)), after, end) && id in end.rows && !Committed(sha, end, id)
  {
    hide Interleaved, EqualFold, BlobObject, FinalObject, ChunkObject, PlainBucket, AllRead, Sort, AllHold;
    assert Attached(s, id) && OpenOk(s, id);
    var dead, done := Apply(sha, s, Die(id)), s.sessions[id].chunksDone;
    InterleavedNone(sha, dead);
    var whole := AllRead(Sort(done), body);
    SelfEqual(sha(whole));
    var mid: Sys;
    after, mid := RequestsAlone(sha, dead, [], dead, id, body, |done|);
    assert done[..|done|] == done;
    HoldSorted(mid.files, id, done, body);
    after, end := CompleteAlone(sha, dead, after, mid, id, body, sha(whole));
    assert end.files[BlobObject(s.rows[id].bucket, id)] == whole;
  }

  lemma HoldSorted(files: Files, id: UUID, done: seq<int>, body: int -> Bytes)
    requires AllHold(files, id, done, body)
    ensures AllHold(files, id, Sort(done), body)
  {
    hide Sort, ChunkObject;
    Assembly.SortSorts(done);
    forall i | i in Sort(done) ensures i in done {
      assert i in multiset(Sort(done));
    }
  }
}
