/** MultipartService as functions on the state. */
module MultipartModel {
  import opened Wrappers
  import opened Text
  import opened Decimal
  import opened Int64
  import opened Paths
  import opened Trees
  import opened Store

  const CHUNK_BUCKET := "tmp"
  const MAX_STATUS_ENTRIES := 10000
  const DEFAULT_CHUNK_SIZE := 102400

  function ChunkKey(id: UUID, index: int): string {
    id + "/" + ("chunk_" + Print(index))
  }

  function FinalKey(id: UUID): string {
    id + "/" + "final"
  }

  datatype InitiateInput = InitiateInput(userId: UUID, bucket: string, filename: string, size: int)

  /** A chunk request. body is what arrives of its body; broken says that reading then fails,
      because the connection is lost or the handler's size limit is reached. */
  datatype ChunkInput = ChunkInput(
    uploadId: UUID,
    userId: UUID,
    index: int,
    hash: string,
    body: Bytes,
    broken: bool := false)

  datatype CompleteInput = CompleteInput(uploadId: UUID, userId: UUID, finalHash: string)

  /** Initiate; id is the fresh UUID of the session. */
  function Initiate(cfg: Config, s: State, input: InitiateInput, id: UUID, now: int): Reply<UUID> {
    if id in s.sessions then Reply(s, Err(SessionFailed))
    else
      var upload := Session(input.userId, input.bucket, input.filename, input.size, [], false, now);
      var ensured := EnsureBucket(cfg.ensure, s.tree, CHUNK_BUCKET);
      var after := s.(sessions := s.sessions[id := upload], tree := ensured.tree);
      Reply(after, if ensured.error.Some? then Err(BucketFailed) else Ok(id))
  }

  /** What the upload cap counts for a recorded chunk: the stored size, or nothing. */
  function ChunkSize(t: Tree, id: UUID, index: int): nat {
    match Stat(t, CHUNK_BUCKET, ChunkKey(id, index))
    case Ok(n) => n
    case Err(_) => 0
  }

  /** The stored bytes of the listed chunks, leaving out one index. */
  function StoredExcept(t: Tree, id: UUID, chunks: seq<int>, skip: int): nat {
    if chunks == [] then 0
    else (if chunks[0] == skip then 0 else ChunkSize(t, id, chunks[0])) + StoredExcept(t, id, chunks[1..], skip)
  }

  /** The checks that accept or reject a chunk once it is stored. */
  function CheckChunk(cfg: Config, t: Tree, upload: Session, input: ChunkInput): Option<Failure> {
    var stat := Stat(t, CHUNK_BUCKET, ChunkKey(input.uploadId, input.index));
    var written := if stat.Ok? then stat.value else -1;
    if cfg.minChunk > 0 && written < cfg.minChunk then Some(ChunkTooSmall)
    else if cfg.maxChunk > 0 && written > cfg.maxChunk then Some(ChunkTooLarge)
    else if !EqualFold(cfg.sha(input.body), input.hash) then Some(HashMismatch)
    else if cfg.maxUpload > 0
      && written + StoredExcept(t, input.uploadId, upload.chunksDone, input.index) > cfg.maxUpload
    then Some(UploadTooLarge)
    else None
  }

  function UploadChunk(cfg: Config, s: State, input: ChunkInput): Reply<()> {
    var id := input.uploadId;
    if id !in s.sessions then Reply(s, Err(InvalidUpload))
    else
      var upload := s.sessions[id];
      if upload.owner != input.userId then Reply(s, Err(Unauthorized))
      else if upload.completed then Reply(s, Err(AlreadyCompleted))
      else if input.hash == "" then Reply(s, Err(MissingHash))
      else
        var put := Put(s.tree, CHUNK_BUCKET, ChunkKey(id, input.index), input.body, input.broken);
        if put.error.Some? then Reply(s.(tree := put.tree), Err(SaveFailed))
        else
          var rejected := CheckChunk(cfg, put.tree, upload, input);
          if rejected.Some? then
            Reply(s.(tree := Delete(put.tree, CHUNK_BUCKET, ChunkKey(id, input.index)).tree), Err(rejected.value))
          else
            var found := input.index in upload.chunksDone;
            var chunks := if found then upload.chunksDone else upload.chunksDone + [input.index];
            Reply(s.(sessions := s.sessions[id := upload.(chunksDone := chunks)], tree := put.tree), Ok(()))
  }

  /** `sort.Ints`. */
  function Insert(x: int, sorted: seq<int>): seq<int> {
    if sorted == [] || x <= sorted[0] then [x] + sorted else [sorted[0]] + Insert(x, sorted[1..])
  }

  function Sort(xs: seq<int>): seq<int> {
    if xs == [] then [] else Insert(xs[0], Sort(xs[1..]))
  }

  /** The stored chunks one after the other, or nothing when one cannot be read. */
  function Assemble(t: Tree, id: UUID, chunks: seq<int>): Option<Bytes> {
    if chunks == [] then Some([])
    else
      match Open(t, CHUNK_BUCKET, ChunkKey(id, chunks[0]))
      case Err(_) => None
      case Ok(first) =>
        match Assemble(t, id, chunks[1..])
        case None => None
        case Some(rest) => Some(first + rest)
  }

  /** Complete: assemble in the temporary namespace, check the hash, promote, record, clean up. */
  function Complete(cfg: Config, s: State, input: CompleteInput, now: int): Reply<Blob> {
    var id := input.uploadId;
    if input.finalHash == "" then Reply(s, Err(MissingHash))
    else if id !in s.sessions then Reply(s, Err(InvalidUpload))
    else
      var upload := s.sessions[id];
      if upload.owner != input.userId then Reply(s, Err(Unauthorized))
      else if upload.completed then Reply(s, Err(AlreadyCompleted))
      else if upload.chunksDone == [] then Reply(s, Err(NoChunks))
      else
        var created := Put(s.tree, CHUNK_BUCKET, FinalKey(id), []);
        if created.error.Some? then Reply(s.(tree := created.tree), Err(SaveFailed))
        else
          match Assemble(created.tree, id, Sort(upload.chunksDone))
          case None =>
            Reply(s.(tree := Delete(created.tree, CHUNK_BUCKET, FinalKey(id)).tree), Err(MissingChunk))
          case Some(content) => Promote(cfg, s.(tree := Put(created.tree, CHUNK_BUCKET, FinalKey(id), content).tree),
                                        input, upload, content, now)
  }

  /** The part of Complete after assembly; the assembled file holds content. */
  function Promote(cfg: Config, s: State, input: CompleteInput, upload: Session, content: Bytes, now: int): Reply<Blob>
    requires input.uploadId in s.sessions
  {
    var id := input.uploadId;
    var hash := cfg.sha(content);
    if !EqualFold(hash, input.finalHash) then
      Reply(s.(tree := Delete(s.tree, CHUNK_BUCKET, FinalKey(id)).tree), Err(HashMismatch))
    else
      var moved := Move(s.tree, CHUNK_BUCKET, FinalKey(id), upload.bucket, id);
      if moved.error.Some? then
        Reply(s.(tree := Delete(moved.tree, CHUNK_BUCKET, FinalKey(id)).tree), Err(MoveFailed))
      else if id in s.rows then Reply(s.(tree := moved.tree), Err(MetadataFailed))
      else
        var blob := Blob(upload.bucket, upload.filename, upload.size, hash, upload.bucket + "/" + id, None, now);
        Reply(State(s.rows[id := blob],
                    s.sessions[id := s.sessions[id].(completed := true)],
                    RemoveTree(moved.tree, CHUNK_BUCKET, id).tree),
              Ok(blob))
  }

  datatype Cleaned = Cleaned(state: State, removed: nat)

  /** CleanupAbandoned, over the sessions found stale in the order they were listed. */
  function CleanupAbandoned(c: Cleaned, order: seq<UUID>): Cleaned
    decreases |order|
  {
    if order == [] then c
    else
      var tree := RemoveTree(c.state.tree, CHUNK_BUCKET, order[0]).tree;
      CleanupAbandoned(Cleaned(c.state.(sessions := c.state.sessions - {order[0]}, tree := tree), c.removed + 1),
                       order[1..])
  }

  // ---------- status ----------

  function EffectiveChunkSize(chunkSize: int): (n: int)
    ensures n > 0
  {
    if chunkSize <= 0 then DEFAULT_CHUNK_SIZE else chunkSize
  }

  function TotalChunks(size: int, chunkSize: int): int {
    RoundedUp(size, EffectiveChunkSize(chunkSize))
  }

  /** The indices from i up to total that are not recorded. */
  function Missing(done: seq<int>, i: int, total: int): seq<int>
    decreases total - i
  {
    if i >= total then [] else (if i in done then [] else [i]) + Missing(done, i + 1, total)
  }

  datatype UploadStatus = UploadStatus(upload: Session, chunkSize: int, totalChunks: int, missing: seq<int>)

  function Status(s: State, uploadId: UUID, userId: UUID, chunkSize: int): Result<UploadStatus, Failure> {
    if uploadId !in s.sessions then Err(InvalidUpload)
    else
      var upload := s.sessions[uploadId];
      var total := TotalChunks(upload.size, chunkSize);
      if upload.owner != userId then Err(Unauthorized)
      else if total > MAX_STATUS_ENTRIES then Err(TooManyChunks)
      else Ok(UploadStatus(upload, EffectiveChunkSize(chunkSize), total, Missing(upload.chunksDone, 0, total)))
  }
}
