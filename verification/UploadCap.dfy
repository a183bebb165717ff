/** The cap on the stored bytes of an upload session. */
module UploadCap {
  import opened Wrappers
  import opened Text
  import opened Decimal
  import opened Int64
  import opened Paths
  import opened Trees
  import opened Store
  import opened BlobModel
  import opened MultipartModel
  import opened Shapes
  import opened Integrity
  import opened MultipartIntegrity
  import opened Expiry
  import opened Runs

  type Chunks = map<Path, Bytes>

  function SizeOf(temps: Chunks, id: UUID, index: int): nat {
    var at := ChunkObject(id, index);
    if at in temps then |temps[at]| else 0
  }

  /** The stored bytes of the listed chunks of a session. */
  function Stored(temps: Chunks, id: UUID, chunks: seq<int>): nat {
    if chunks == [] then 0 else SizeOf(temps, id, chunks[0]) + Stored(temps, id, chunks[1..])
  }

  function WithIndex(chunks: seq<int>, index: int): seq<int> {
    if index in chunks then chunks else chunks + [index]
  }

  /** Every session lists each chunk once, and its recorded chunks take no more than the cap. */
  ghost predicate CapInv(cfg: Config, s: State) {
    forall id :: id in s.sessions ==> SessionCapped(cfg, Temps(s.tree), id, s.sessions[id].chunksDone)
  }

  ghost predicate SessionCapped(cfg: Config, temps: Chunks, id: UUID, chunks: seq<int>) {
    Distinct(chunks) && (cfg.maxUpload > 0 ==> Stored(temps, id, chunks) <= cfg.maxUpload)
  }

  /** Chunks that shrink or disappear make the sum no larger. */
  lemma {:induction false} StoredMonotone(a: Chunks, b: Chunks, id: UUID, chunks: seq<int>)
    requires forall i :: i in chunks ==> SizeOf(a, id, i) <= SizeOf(b, id, i)
    ensures Stored(a, id, chunks) <= Stored(b, id, chunks)
    decreases |chunks|
  {
    hide SizeOf;
    if chunks != [] {
      assert chunks[0] in chunks;
      StoredMonotone(a, b, id, chunks[1..]);
    }
  }

  lemma {:induction false} StoredAppend(temps: Chunks, id: UUID, chunks: seq<int>, index: int)
    ensures Stored(temps, id, chunks + [index]) == Stored(temps, id, chunks) + SizeOf(temps, id, index)
    decreases |chunks|
  {
    hide SizeOf;
    if chunks == [] {
      assert chunks + [index] == [index];
    } else {
      assert (chunks + [index])[1..] == chunks[1..] + [index];
      StoredAppend(temps, id, chunks[1..], index);
    }
  }

  /** What the check adds up is the stored bytes of the other recorded chunks. */
  lemma {:induction false} ExceptIsRest(t: Tree, id: UUID, chunks: seq<int>, index: int)
    requires Shaped(t) && Distinct(chunks)
    ensures StoredExcept(t, id, chunks, index) + (if index in chunks then SizeOf(Temps(t), id, index) else 0)
         == Stored(Temps(t), id, chunks)
    decreases |chunks|
  {
    hide Shaped, SizeOf, Temps, Stat;
    if chunks != [] {
      assert forall x :: x in chunks <==> x == chunks[0] || x in chunks[1..];
      assert chunks[0] !in chunks[1..];
      SizeRead(t, id, chunks[0]);
      ExceptIsRest(t, id, chunks[1..], index);
    }
  }

  lemma SizeRead(t: Tree, id: UUID, index: int)
    requires Shaped(t)
    ensures ChunkSize(t, id, index) == SizeOf(Temps(t), id, index)
  {
    ReadChunk(t, id, index);
  }

  /** The running total of the check stays within 64 bits all the way if and only if the recorded
      chunks, with the new one in its place, do. */
  lemma TotalFits(t: Tree, id: UUID, chunks: seq<int>, index: int)
    requires Shaped(t) && Distinct(chunks)
    ensures
      (forall k :: 0 <= k <= |chunks| ==>
        SizeOf(Temps(t), id, index) + StoredExcept(t, id, chunks[..k], index) <= MAX_INT64)
      <==> Stored(Temps(t), id, WithIndex(chunks, index)) <= MAX_INT64
  {
    hide Shaped, Temps, SizeOf;
    ExceptIsRest(t, id, chunks, index);
    StoredAppend(Temps(t), id, chunks, index);
    assert chunks[..|chunks|] == chunks;
    forall k | 0 <= k <= |chunks|
      ensures StoredExcept(t, id, chunks[..k], index) <= StoredExcept(t, id, chunks, index)
    {
      ExceptPrefix(t, id, chunks, k, index);
    }
  }

  /** It does for a session within the cap, when the chunk limit is on and the two limits
      together fit. */
  lemma CappedTotalFits(cfg: Config, s: State, input: ChunkInput, t: Tree)
    requires input.uploadId in s.sessions && cfg.maxUpload > 0 && Shaped(t)
    requires SessionCapped(cfg, Temps(s.tree), input.uploadId, s.sessions[input.uploadId].chunksDone)
    requires Temps(t) == Temps(s.tree)[ChunkObject(input.uploadId, input.index) := input.body]
    requires cfg.maxChunk > 0 && |input.body| <= cfg.maxChunk && cfg.maxChunk + cfg.maxUpload <= MAX_INT64
    ensures Stored(Temps(t), input.uploadId, WithIndex(s.sessions[input.uploadId].chunksDone, input.index)) <= MAX_INT64
  {
    hide Shaped, Temps, ChunkObject;
    var id, chunks := input.uploadId, s.sessions[input.uploadId].chunksDone;
    ExceptIsRest(t, id, chunks, input.index);
    StoredAppend(Temps(t), id, chunks, input.index);
    ExceptUnder(t, Temps(s.tree), id, chunks, input.index, input.body);
  }

  lemma {:induction false} ExceptPrefix(t: Tree, id: UUID, chunks: seq<int>, k: nat, skip: int)
    requires k <= |chunks|
    ensures StoredExcept(t, id, chunks[..k], skip) <= StoredExcept(t, id, chunks, skip)
    decreases k
  {
    if k > 0 {
      assert chunks[..k][1..] == chunks[1..][..k - 1];
      ExceptPrefix(t, id, chunks[1..], k - 1, skip);
    }
  }

  /** Replacing one chunk does not change what the other chunks take. */
  lemma {:induction false} ExceptUnder(t: Tree, before: Chunks, id: UUID, chunks: seq<int>, index: int, body: Bytes)
    requires Shaped(t) && Temps(t) == before[ChunkObject(id, index) := body]
    ensures StoredExcept(t, id, chunks, index) <= Stored(before, id, chunks)
    decreases |chunks|
  {
    hide Shaped, Temps, ChunkObject, Stat;
    if chunks != [] {
      SizeRead(t, id, chunks[0]);
      ChunksDistinct(id, chunks[0], index);
      ExceptUnder(t, before, id, chunks[1..], index, body);
    }
  }

  // ---------- the cap over steps and runs ----------

  /** Temporary objects of a session that is not touched keep their sizes. */
  lemma CapUnder(cfg: Config, a: Chunks, b: Chunks, id: UUID, chunks: seq<int>)
    requires SessionCapped(cfg, b, id, chunks)
    requires forall i :: i in chunks ==> SizeOf(a, id, i) <= SizeOf(b, id, i)
    ensures SessionCapped(cfg, a, id, chunks)
  {
    hide SizeOf;
    StoredMonotone(a, b, id, chunks);
  }

  /** A request that chunk requests act on: the session is open and the caller's own. */
  predicate Opened(s: State, input: ChunkInput) {
    && input.uploadId in s.sessions && s.sessions[input.uploadId].owner == input.userId
    && !s.sessions[input.uploadId].completed && input.hash != ""
  }

  /** A body breaks off over a recorded chunk and leaves more there than the cap allows. */
  predicate BreaksCap(cfg: Config, s: State, input: ChunkInput) {
    && Opened(s, input) && cfg.maxUpload > 0 && input.broken
    && input.index in s.sessions[input.uploadId].chunksDone
    && cfg.maxUpload < Stored(Temps(s.tree)[ChunkObject(input.uploadId, input.index) := input.body], input.uploadId,
                              s.sessions[input.uploadId].chunksDone)
  }

  /** A chunk request keeps the cap if and only if it is not of that kind. */
  lemma ChunkKeepsCapIff(cfg: Config, s: State, input: ChunkInput)
    requires Shaped(s.tree) && CapInv(cfg, s)
    ensures CapInv(cfg, UploadChunk(cfg, s, input).state) <==> !BreaksCap(cfg, s, input)
  {
    hide Shaped, Temps, ChunkObject, UploadChunk, Stored, SizeOf;
    if Opened(s, input) {
      UploadChunkOutcome(cfg, s, input);
      var id := input.uploadId;
      assert SessionCapped(cfg, Temps(s.tree), id, s.sessions[id].chunksDone);
      if input.broken {
        BrokenChunk(cfg, s, input);
      } else if UploadChunk(cfg, s, input).result.Ok? {
        AcceptedCap(cfg, s, input);
        OthersCapped(cfg, s, UploadChunk(cfg, s, input).state, input);
      } else {
        LessUnder(cfg, s, input);
        OthersCapped(cfg, s, UploadChunk(cfg, s, input).state, input);
      }
    } else {
      ChunkRefused(cfg, s, input);
    }
  }

  lemma ChunkRefused(cfg: Config, s: State, input: ChunkInput)
    requires !Opened(s, input)
    ensures UploadChunk(cfg, s, input).state == s && UploadChunk(cfg, s, input).result.Err?
  {
    hide Put, Delete, CheckChunk;
  }

  /** A rejected chunk leaves its session with no more than before. */
  lemma LessUnder(cfg: Config, s: State, input: ChunkInput)
    requires Shaped(s.tree) && Opened(s, input)
    requires SessionCapped(cfg, Temps(s.tree), input.uploadId, s.sessions[input.uploadId].chunksDone)
    ensures SessionCapped(cfg, Temps(s.tree) - {ChunkObject(input.uploadId, input.index)}, input.uploadId,
                          s.sessions[input.uploadId].chunksDone)
  {
    hide Shaped, Temps, ChunkObject;
    CapUnder(cfg, Temps(s.tree) - {ChunkObject(input.uploadId, input.index)}, Temps(s.tree), input.uploadId,
             s.sessions[input.uploadId].chunksDone);
  }

  /** A body that breaks off changes what its own session takes only under a recorded index. */
  lemma BrokenChunk(cfg: Config, s: State, input: ChunkInput)
    requires Shaped(s.tree) && CapInv(cfg, s) && Opened(s, input) && input.broken
    ensures CapInv(cfg, UploadChunk(cfg, s, input).state) <==> !BreaksCap(cfg, s, input)
  {
    hide Shaped, Temps, ChunkObject, UploadChunk, Stored;
    UploadChunkOutcome(cfg, s, input);
    var id, r := input.uploadId, UploadChunk(cfg, s, input).state;
    var chunks := s.sessions[id].chunksDone;
    assert SessionCapped(cfg, Temps(s.tree), id, chunks);
    if input.index !in chunks {
      forall i | i in chunks ensures SizeOf(Temps(r.tree), id, i) <= SizeOf(Temps(s.tree), id, i) {
        ChunksDistinct(id, i, input.index);
      }
      CapUnder(cfg, Temps(r.tree), Temps(s.tree), id, chunks);
    }
    if SessionCapped(cfg, Temps(r.tree), id, chunks) {
      OthersCapped(cfg, s, r, input);
    }
  }

  /** The other sessions take what they took before. */
  lemma OthersCapped(cfg: Config, s: State, r: State, input: ChunkInput)
    requires CapInv(cfg, s) && r.sessions.Keys == s.sessions.Keys && input.uploadId in s.sessions
    requires forall x :: x in s.sessions && x != input.uploadId ==> r.sessions[x] == s.sessions[x]
    requires
      || Temps(r.tree) == Temps(s.tree)[ChunkObject(input.uploadId, input.index) := input.body]
      || Temps(r.tree) == Temps(s.tree) - {ChunkObject(input.uploadId, input.index)}
    requires SessionCapped(cfg, Temps(r.tree), input.uploadId, r.sessions[input.uploadId].chunksDone)
    ensures CapInv(cfg, r)
  {
    hide Temps, ChunkObject, Stored;
    forall x | x in r.sessions && x != input.uploadId
      ensures SessionCapped(cfg, Temps(r.tree), x, r.sessions[x].chunksDone)
    {
      assert SessionCapped(cfg, Temps(s.tree), x, s.sessions[x].chunksDone);
      forall i | i in s.sessions[x].chunksDone ensures SizeOf(Temps(r.tree), x, i) <= SizeOf(Temps(s.tree), x, i) {
        OtherSession(x, i, input.uploadId, input.index);
      }
      CapUnder(cfg, Temps(r.tree), Temps(s.tree), x, s.sessions[x].chunksDone);
    }
  }

  lemma OtherSession(x: UUID, i: int, id: UUID, j: int)
    requires x != id
    ensures ChunkObject(x, i) != ChunkObject(id, j)
  {
    assert ChunkObject(x, i)[1] == x && ChunkObject(id, j)[1] == id;
  }

  /** A chunk of an open session is accepted if and only if its body arrives in full, its size is
      within the chunk limits, its bytes have the announced hash, and the recorded chunks, with
      this one in its place, take no more than the cap. */
  lemma ChunkAcceptedIff(cfg: Config, s: State, input: ChunkInput)
    requires Shaped(s.tree) && Opened(s, input) && Distinct(s.sessions[input.uploadId].chunksDone)
    ensures var id, chunks := input.uploadId, WithIndex(s.sessions[input.uploadId].chunksDone, input.index);
      UploadChunk(cfg, s, input).result.Ok? <==>
        && !input.broken
        && (cfg.minChunk > 0 ==> cfg.minChunk <= |input.body|)
        && (cfg.maxChunk > 0 ==> |input.body| <= cfg.maxChunk)
        && EqualFold(cfg.sha(input.body), input.hash)
        && (cfg.maxUpload > 0 ==>
              Stored(Temps(s.tree)[ChunkObject(id, input.index) := input.body], id, chunks) <= cfg.maxUpload)
  {
    hide Shaped, Temps, Blobs, Put, Delete, Stat, EqualFold, ChunkObject, UploadChunk;
    UploadChunkOutcome(cfg, s, input);
    var id, chunks := input.uploadId, s.sessions[input.uploadId].chunksDone;
    var t := Put(s.tree, CHUNK_BUCKET, ChunkKey(id, input.index), input.body).tree;
    ReadChunk(t, id, input.index);
    ExceptIsRest(t, id, chunks, input.index);
    StoredAppend(Temps(t), id, chunks, input.index);
  }

  /** What a chunk request is answered, in the order of its checks. With a hash printed in
      lower-case hexadecimal, the header has to spell the hash of the body, in capitals or not;
      the first thing that is wrong is the answer. */
  lemma ChunkAnswer(cfg: Config, s: State, input: ChunkInput)
    requires Shaped(s.tree) && ListedOnce(s) && PrintsHex(cfg.sha)
    ensures var r, id, body := UploadChunk(cfg, s, input).result, input.uploadId, input.body;
      if id !in s.sessions then r == Err(InvalidUpload)
      else if s.sessions[id].owner != input.userId then r == Err(Unauthorized)
      else if s.sessions[id].completed then r == Err(AlreadyCompleted)
      else if input.hash == "" then r == Err(MissingHash)
      else if input.broken then r == Err(SaveFailed)
      else if 0 < cfg.minChunk && |body| < cfg.minChunk then r == Err(ChunkTooSmall)
      else if 0 < cfg.maxChunk < |body| then r == Err(ChunkTooLarge)
      else if !Spells(input.hash, cfg.sha(body)) then r == Err(HashMismatch)
      else
        var stored := Temps(s.tree)[ChunkObject(id, input.index) := body];
        if 0 < cfg.maxUpload < Stored(stored, id, WithIndex(s.sessions[id].chunksDone, input.index)) then
          r == Err(UploadTooLarge)
        else r == Ok(())
  {
    hide Shaped, Temps, Blobs, Put, Delete, Stat, EqualFold, Spells, ChunkObject, CheckChunk;
    if Opened(s, input) {
      UploadChunkOutcome(cfg, s, input);
      if !input.broken {
        ChunkRejected(cfg, s, input);
        CheckedChunk(cfg, s, input);
      }
    }
  }

  lemma ChunkRejected(cfg: Config, s: State, input: ChunkInput)
    requires Shaped(s.tree) && Opened(s, input) && !input.broken
    ensures var t := Put(s.tree, CHUNK_BUCKET, ChunkKey(input.uploadId, input.index), input.body).tree;
      var rejected := CheckChunk(cfg, t, s.sessions[input.uploadId], input);
      UploadChunk(cfg, s, input).result == if rejected.Some? then Err(rejected.value) else Ok(())
  {
    hide Shaped, Put, Delete, CheckChunk, ChunkKey, ObjectShape;
    ChunkLocation(input.uploadId, input.index);
    PutTemp(s.tree, ChunkKey(input.uploadId, input.index), ChunkObject(input.uploadId, input.index), input.body);
  }

  /** The checks of a stored chunk, in terms of the bytes sent and stored. */
  lemma CheckedChunk(cfg: Config, s: State, input: ChunkInput)
    requires Shaped(s.tree) && Opened(s, input) && Distinct(s.sessions[input.uploadId].chunksDone) && PrintsHex(cfg.sha)
    ensures var id, body := input.uploadId, input.body;
      var t := Put(s.tree, CHUNK_BUCKET, ChunkKey(id, input.index), body).tree;
      var stored := Temps(s.tree)[ChunkObject(id, input.index) := body];
      CheckChunk(cfg, t, s.sessions[id], input)
      == if 0 < cfg.minChunk && |body| < cfg.minChunk then Some(ChunkTooSmall)
         else if 0 < cfg.maxChunk < |body| then Some(ChunkTooLarge)
         else if !Spells(input.hash, cfg.sha(body)) then Some(HashMismatch)
         else if 0 < cfg.maxUpload < Stored(stored, id, WithIndex(s.sessions[id].chunksDone, input.index)) then
           Some(UploadTooLarge)
         else None
  {
    hide Shaped, Temps, Blobs, Put, Delete, Stat, EqualFold, Spells, ChunkObject, UploadChunk;
    UploadChunkOutcome(cfg, s, input);
    var id, chunks := input.uploadId, s.sessions[input.uploadId].chunksDone;
    var t := Put(s.tree, CHUNK_BUCKET, ChunkKey(id, input.index), input.body).tree;
    ReadChunk(t, id, input.index);
    ExceptIsRest(t, id, chunks, input.index);
    StoredAppend(Temps(t), id, chunks, input.index);
    FoldsIff(cfg.sha(input.body), input.hash);
  }

  /** An accepted chunk is listed and leaves its session within the cap, whether it is new, larger
      or smaller, and whether the session was within the cap before or not. */
  lemma AcceptedCap(cfg: Config, s: State, input: ChunkInput)
    requires Shaped(s.tree) && input.uploadId in s.sessions && Distinct(s.sessions[input.uploadId].chunksDone)
    requires UploadChunk(cfg, s, input).result.Ok?
    ensures var r := UploadChunk(cfg, s, input).state;
      && input.uploadId in r.sessions && input.index in r.sessions[input.uploadId].chunksDone
      && SessionCapped(cfg, Temps(r.tree), input.uploadId, r.sessions[input.uploadId].chunksDone)
  {
    hide Shaped, Temps, Blobs, UploadChunk, EqualFold, ChunkObject, Stored;
    if !Opened(s, input) {
      ChunkRefused(cfg, s, input);
    } else {
      UploadChunkOutcome(cfg, s, input);
      ChunkAcceptedIff(cfg, s, input);
    }
  }

  /** The operations on blobs leave sessions and temporary objects alone. */
  lemma BlobActionsLeaveTemps(cfg: Config, s: State, a: Action)
    requires Inv(cfg.sha, s) && Legal(cfg, s, a)
    requires a.UploadAction? || a.EditAction? || a.DeleteAction? || a.PurgeAction? || a.OpenAction?
    ensures Step(cfg, s, a).sessions == s.sessions && Temps(Step(cfg, s, a).tree) == Temps(s.tree)
  {
    hide Shaped, Temps, Blobs, RowsCanonical, SessionsOk, UploadTarget, EditTarget, Edit, RemovePhysical,
      PurgeExpired, Home, EditBreaks, FreshId;
    match a
    case UploadAction(input, id, now, pick) => UploadLeavesTemps(cfg, s, input, id, now, pick);
    case EditAction(id, input) => EditLeavesTemps(cfg.sha, s, id, input);
    case DeleteAction(id) => if id in s.rows { DropRow(cfg.sha, s, id, NOBODY); }
    case PurgeAction(now, order) => PurgeLeaves(cfg.sha, s, now, order, NOBODY);
    case OpenAction(_) =>
  }

  lemma UploadLeavesTemps(cfg: Config, s: State, input: UploadInput, id: UUID, now: int, pick: Option<UUID>)
    requires Inv(cfg.sha, s) && UploadTarget(input.bucket) && FreshId(s, id)
    requires LatestWithHash(s.rows, cfg.sha(input.content), pick)
    ensures var r := Upload(cfg, s, input, id, now, pick).state;
      r.sessions == s.sessions && Temps(r.tree) == Temps(s.tree)
  {
    hide InvExcept, Temps, Blobs, UploadTarget, Home, Accepted, Upload, FreshId, NewRow;
    if Accepted(cfg, s, input.bucket) {
      UploadInOrder(cfg, s, input, id, now, pick);
    } else {
      InvParts(cfg.sha, s, NOBODY);
      UploadRefused(cfg, s, input, id, now, pick);
    }
  }

  lemma EditLeavesTemps(sha: Bytes -> string, s: State, id: UUID, input: EditInput)
    requires Inv(sha, s) && (AsksMove(input) ==> EditTarget(input.bucket.value)) && !EditBreaks(s, id, input)
    ensures var r := Edit(s, id, input).state; r.sessions == s.sessions && Temps(r.tree) == Temps(s.tree)
  {
    hide Temps, Blobs, PlainBucket, Readable, InvExcept, Move, BucketKey, Shaped, MovesOwnDirectory,
      LosesSharedObject, BlobObject, Free;
    if id in s.rows && AsksMove(input) && !Readable(input.bucket.value) {
      EditRefused(s, id, input);
    } else if id in s.rows && AsksMove(input) {
      EditFields(s, id, input);
      EditMove(sha, s, id, input.bucket.value);
    }
  }

  predicate ActionBreaksCap(cfg: Config, s: State, a: Action) {
    a.ChunkAction? && BreaksCap(cfg, s, a.chunk)
  }

  /** A step of any kind keeps the cap if and only if it is no body that breaks off over a recorded
      chunk and leaves too much there. */
  lemma StepKeepsCapIff(cfg: Config, s: State, a: Action)
    requires Inv(cfg.sha, s) && CapInv(cfg, s) && Legal(cfg, s, a)
    ensures CapInv(cfg, Step(cfg, s, a)) <==> !ActionBreaksCap(cfg, s, a)
  {
    hide InvExcept, Temps, UploadChunk, SessionCapped, UploadTarget, EditTarget, EditBreaks, FreshId, Upload, Edit,
      DeleteBlob, PurgeExpired, Initiate, Complete, CleanupAbandoned, BreaksCap, PlainBucket;
    match a
    case InitiateAction(input, id, now) => InitiateKeepsCap(cfg, s, input, id, now);
    case ChunkAction(input) => InvParts(cfg.sha, s, NOBODY); ChunkKeepsCapIff(cfg, s, input);
    case CompleteAction(input, now) => CompleteKeepsCap(cfg, s, input, now);
    case CleanupAction(cutoff, order) => CleanupKeepsCap(cfg, s, cutoff, order);
    case _ => BlobActionsLeaveTemps(cfg, s, a);
  }

  lemma InitiateKeepsCap(cfg: Config, s: State, input: InitiateInput, id: UUID, now: int)
    requires Inv(cfg.sha, s) && CapInv(cfg, s) && FreshId(s, id)
    ensures CapInv(cfg, Initiate(cfg, s, input, id, now).state)
  {
    hide Shaped, EnsureBucket, RowsCanonical, SessionsOk;
    EnsureShaped(cfg.ensure, s.tree, CHUNK_BUCKET);
    var r := Initiate(cfg, s, input, id, now).state;
    assert Temps(r.tree) == Temps(s.tree);
    forall x | x in r.sessions ensures SessionCapped(cfg, Temps(r.tree), x, r.sessions[x].chunksDone) {
      if x != id {
        assert SessionCapped(cfg, Temps(s.tree), x, s.sessions[x].chunksDone);
      }
    }
  }

  lemma CompleteKeepsCap(cfg: Config, s: State, input: CompleteInput, now: int)
    requires Inv(cfg.sha, s) && CapInv(cfg, s)
    ensures CapInv(cfg, Complete(cfg, s, input, now).state)
  {
    hide Shaped, Temps, Put, Delete, RowsCanonical, SessionsOk, Blobs, Assemble, Promote, ChunkObject, FinalObject;
    var id := input.uploadId;
    var r := Complete(cfg, s, input, now);
    if Completable(s, input) {
      CompleteOutcome(cfg, s, input, now);
      forall x | x in r.state.sessions
        ensures SessionCapped(cfg, Temps(r.state.tree), x, r.state.sessions[x].chunksDone)
      {
        assert SessionCapped(cfg, Temps(s.tree), x, s.sessions[x].chunksDone);
        forall i | i in s.sessions[x].chunksDone
          ensures SizeOf(Temps(r.state.tree), x, i) <= SizeOf(Temps(s.tree), x, i)
        {
          assert ChunkObject(x, i) in Temps(r.state.tree) ==>
            ChunkObject(x, i) in Temps(s.tree)
              && Temps(r.state.tree)[ChunkObject(x, i)] == Temps(s.tree)[ChunkObject(x, i)];
        }
        CapUnder(cfg, Temps(r.state.tree), Temps(s.tree), x, s.sessions[x].chunksDone);
      }
    }
  }

  lemma CleanupKeepsCap(cfg: Config, s: State, cutoff: int, order: seq<UUID>)
    requires Inv(cfg.sha, s) && CapInv(cfg, s) && Lists(order, Stale(s.sessions, cutoff))
    ensures CapInv(cfg, CleanupAbandoned(Cleaned(s, 0), order).state)
  {
    hide Shaped, Temps, RowsCanonical, SessionsOk, Blobs, CleanupAbandoned, ChunkObject;
    CleanupExact(s, cutoff, order);
    var r := CleanupAbandoned(Cleaned(s, 0), order).state;
    forall x | x in r.sessions ensures SessionCapped(cfg, Temps(r.tree), x, r.sessions[x].chunksDone) {
      assert SessionCapped(cfg, Temps(s.tree), x, s.sessions[x].chunksDone);
      CapUnder(cfg, Temps(r.tree), Temps(s.tree), x, s.sessions[x].chunksDone);
    }
  }

  /** Every session is within the cap at every state of a run. */
  ghost predicate CappedThroughout(cfg: Config, s: State, actions: seq<Action>)
    decreases |actions|
  {
    && CapInv(cfg, s)
    && (actions != [] && Legal(cfg, s, actions[0]) ==> CappedThroughout(cfg, Step(cfg, s, actions[0]), actions[1..]))
  }

  /** No body of a run breaks off over a recorded chunk and leaves more there than the cap allows. */
  ghost predicate NoneBreaksCap(cfg: Config, s: State, actions: seq<Action>)
    decreases |actions|
  {
    actions != [] && Legal(cfg, s, actions[0]) ==>
      && !ActionBreaksCap(cfg, s, actions[0])
      && NoneBreaksCap(cfg, Step(cfg, s, actions[0]), actions[1..])
  }

  lemma {:induction false} RunKeepsCapIff(cfg: Config, s: State, actions: seq<Action>, end: State)
    requires Inv(cfg.sha, s) && CapInv(cfg, s) && Run(cfg, s, actions, end)
    ensures CappedThroughout(cfg, s, actions) <==> NoneBreaksCap(cfg, s, actions)
    ensures NoneBreaksCap(cfg, s, actions) ==> CapInv(cfg, end)
    decreases |actions|
  {
    hide Inv, CapInv, Legal, Step, ActionBreaksCap;
    if actions != [] {
      StepKeepsInv(cfg, s, actions[0]);
      StepKeepsCapIff(cfg, s, actions[0]);
      if !ActionBreaksCap(cfg, s, actions[0]) {
        RunKeepsCapIff(cfg, Step(cfg, s, actions[0]), actions[1..], end);
      }
    }
  }

  /** Over every sequential run from an empty store, the recorded chunks of every session stay
      within the cap all along if and only if no body breaks off over a recorded chunk and leaves
      more there than the cap allows. */
  lemma CapOverRuns(cfg: Config, actions: seq<Action>, end: State)
    requires Run(cfg, EMPTY, actions, end)
    ensures CappedThroughout(cfg, EMPTY, actions) <==> NoneBreaksCap(cfg, EMPTY, actions)
    ensures NoneBreaksCap(cfg, EMPTY, actions) && cfg.maxUpload > 0 ==>
      forall id :: id in end.sessions ==> Stored(Temps(end.tree), id, end.sessions[id].chunksDone) <= cfg.maxUpload
  {
    hide Run, Stored, CappedThroughout, NoneBreaksCap, Inv, Temps;
    EmptyInv(cfg.sha);
    RunKeepsCapIff(cfg, EMPTY, actions, end);
    if NoneBreaksCap(cfg, EMPTY, actions) && cfg.maxUpload > 0 {
      forall id | id in end.sessions ensures Stored(Temps(end.tree), id, end.sessions[id].chunksDone) <= cfg.maxUpload {
        assert SessionCapped(cfg, Temps(end.tree), id, end.sessions[id].chunksDone);
      }
    }
  }

  /** In particular when every body arrives in full. */
  lemma {:induction false} WholeBodiesKeepCap(cfg: Config, s: State, actions: seq<Action>)
    requires forall k :: 0 <= k < |actions| && actions[k].ChunkAction? ==> !actions[k].chunk.broken
    ensures NoneBreaksCap(cfg, s, actions)
    decreases |actions|
  {
    hide Legal, Step;
    if actions != [] && Legal(cfg, s, actions[0]) {
      WholeBodiesKeepCap(cfg, Step(cfg, s, actions[0]), actions[1..]);
    }
  }

  // ---------- what holds whatever breaks off ----------

  /** Every session lists each chunk once. */
  ghost predicate ListedOnce(s: State) {
    forall id :: id in s.sessions ==> Distinct(s.sessions[id].chunksDone)
  }

  lemma StepKeepsLists(cfg: Config, s: State, a: Action)
    requires Inv(cfg.sha, s) && ListedOnce(s) && Legal(cfg, s, a)
    ensures ListedOnce(Step(cfg, s, a))
  {
    hide InvExcept, UploadTarget, EditTarget, EditBreaks, FreshId, Upload, Edit, DeleteBlob, PurgeExpired,
      EnsureBucket, CleanupAbandoned, PlainBucket, UploadChunk, Complete;
    match a
    case InitiateAction(input, id, now) =>
    case ChunkAction(input) => ChunkKeepsLists(cfg, s, input);
    case CompleteAction(input, now) => CompleteKeepsLists(cfg, s, input, now);
    case CleanupAction(cutoff, order) => InvParts(cfg.sha, s, NOBODY); CleanupExact(s, cutoff, order);
    case _ => BlobActionsLeaveTemps(cfg, s, a);
  }

  lemma ChunkKeepsLists(cfg: Config, s: State, input: ChunkInput)
    requires ListedOnce(s)
    ensures ListedOnce(UploadChunk(cfg, s, input).state)
  {
    hide Put, Delete, CheckChunk;
  }

  lemma CompleteKeepsLists(cfg: Config, s: State, input: CompleteInput, now: int)
    requires Inv(cfg.sha, s) && ListedOnce(s)
    ensures ListedOnce(Complete(cfg, s, input, now).state)
  {
    hide InvExcept, Complete, Assemble, Temps, Blobs, BlobObject, Free;
    if Completable(s, input) {
      CompleteOutcome(cfg, s, input, now);
    } else {
      CompleteRefused(cfg, s, input, now);
    }
  }

  lemma {:induction false} RunKeepsLists(cfg: Config, s: State, actions: seq<Action>, end: State)
    requires Inv(cfg.sha, s) && ListedOnce(s) && Run(cfg, s, actions, end)
    ensures Inv(cfg.sha, end) && ListedOnce(end)
    decreases |actions|
  {
    hide Inv, ListedOnce, Legal, Step;
    if actions != [] {
      StepKeepsInv(cfg, s, actions[0]);
      StepKeepsLists(cfg, s, actions[0]);
      RunKeepsLists(cfg, Step(cfg, s, actions[0]), actions[1..], end);
    }
  }

  /** Whatever broke off before: after any sequential run from an empty store, a chunk that is
      accepted leaves its session within the cap. */
  lemma AcceptedAfterRuns(cfg: Config, actions: seq<Action>, end: State, input: ChunkInput)
    requires Run(cfg, EMPTY, actions, end) && UploadChunk(cfg, end, input).result.Ok? && cfg.maxUpload > 0
    ensures var r := UploadChunk(cfg, end, input).state;
      && input.uploadId in r.sessions && input.index in r.sessions[input.uploadId].chunksDone
      && Stored(Temps(r.tree), input.uploadId, r.sessions[input.uploadId].chunksDone) <= cfg.maxUpload
  {
    hide Run, UploadChunk, InvExcept, Stored, Temps;
    EmptyInv(cfg.sha);
    RunKeepsLists(cfg, EMPTY, actions, end);
    InvParts(cfg.sha, end, NOBODY);
    if !Opened(end, input) {
      ChunkRefused(cfg, end, input);
    } else {
      AcceptedCap(cfg, end, input);
    }
  }
}
