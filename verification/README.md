# A verified model of the blob store

The blob store keeps three things in step: a table of blob rows, a table of multipart upload
sessions, and a directory tree of stored objects. Deduplication lets several rows point at one
object, deletion counts the rows that share a path before it unlinks, multipart completion moves an
assembled file from the temporary namespace into a bucket, and chunk retries overwrite or delete
chunks that are already recorded. This project models those operations branch by branch and proves
what they keep over all runs.

## How the model is built

* `Text`, `Decimal`, `Int64`: the Go string and number functions the code relies on.
* `Paths`, `Trees`, `Refinement`: `filepath.Clean` as a fold over segments, the driver's checks, the
  directory tree with its directories and files, and its refinement of a plain map of objects.
* `Store`, `BlobModel`, `MultipartModel`: the state and each service operation as a function on it;
  `Buckets`: which buckets are accepted and read back.
* `FilesystemDrivers`, `Repositories`, `BlobServices`, `MultipartServices`, and the class in
  `RateLimit`: the same operations as methods of classes that change tables and tree in place, with
  the loops of the source. Each method's postcondition equates its result and the new state with the
  function of the old state, so what is proved about the functions holds of the methods.
* `Shapes`, `References`, `Integrity`, `MultipartIntegrity`, `Runs`: where objects live, the
  invariant, and its preservation by every operation and every run.
* `Expiry` (purging and crashes), `UploadCap`, `Assembly`, `DeclaredSize`, `RoundTrip`, `Accounting`,
  `Dedup`, `Interleaving`: the results built on the invariant, and the model in which requests
  interleave; `Sequential`: the sequential operations as runs of that model; `Witnesses`: concrete runs in which the conditions of these results fail.
* `RateLimit`, `Pagination`, `SignedUrl`: the three smaller parts.

SHA-256 (section 6.2 of FIPS 180-4) and HMAC (section 2 of RFC 2104) are uninterpreted functions; where their
text matters, it is lower-case hexadecimal (`Store.PrintsHex`).
Fresh UUIDs, the clock, the row the database picks among equally recent ones, the order of query
results and whether a Redis reply arrives are parameters, constrained only as the source constrains
them. Sizes and indices are mathematical integers; the 64-bit wrap-around is written out in the chunk
count, the page count and the offset of a page, and the running total of the cap check is proved to stay in
range exactly when the recorded chunks do.

## What the theorems assume

* A bucket is *plain* (`Shapes.PlainBucket`): it has no `..` segment, the driver accepts it, its first segment
  is kept and is not `tmp`. Other spellings of a path, such as `a/b/`, are included. An upload may name any
  plain bucket, and any bucket that the service or the driver rejects (`Integrity.UploadTarget`); an edit any
  plain bucket, and any other bucket without `..` to which no stored path leads (`Integrity.EditTarget`).
  `Buckets.UploadReadableIff` says exactly for which accepted buckets an upload is found again through its
  stored path (not for `a/`). `MultipartIntegrity.TempBucketNeverCompletes` and `Witnesses.SessionUploadLost`
  say why sessions and uploads must stay out of `tmp`.
* An id drawn for a row or a session is fresh (`Integrity.FreshId`), and `GetByHash` answers with a most
  recent row of the hash or says truthfully that there is none.
* A bucket edit neither carries away an object that other rows share nor moves a directory
  (`Integrity.EditBreaks`). `Integrity.EditKeepsIff` proves that this is exactly the condition under which
  an edit is safe.
* A collision-free hash is assumed only by the results that say so: the round trip, the invisibility of
  deduplication, and the last clause of the interleaving theorem.
* The storage root exists, repository calls succeed, and storage calls fail only for reasons visible in
  the tree, except in the crash theorems and in the interleaving model. The body of a chunk request may
  break off after any number of bytes, in every run.

Nothing is assumed about segments in the form of a UUID, which the form of a bucket allows. A bucket such
as `b/<id>` may run through the place of a row, and then four things turn on it, each with its exact
condition:

* an upload to a bucket that runs through a stored object is refused, and changes nothing
  (`Integrity.Accepted`, `Integrity.UploadRefused`); a bucket without such segments never is
  (`Shapes.OrdinaryBucketOpen`);
* a row that borrows another row's object may have a directory at its own place, and an edit of its bucket
  moves that directory away from the rows whose objects are in it (`Integrity.EditKeepsIff`,
  `Witnesses.EditMovesDirectory`);
* between an interrupted deletion and its rerun, an upload to a bucket through the deleted row's place makes
  a directory there, to which a deduplicating upload then attaches (`Integrity.UploadKeepsIff`,
  `Expiry.UploadThenRerun`, `Witnesses.AttachesToDirectory`);
* a deduplicating and a plain store answer an upload differently when its bucket runs through an object of
  one of them only (`Dedup.CallInvisible`, `Witnesses.AnswersPart`).

## Where the code and its documentation differ

The model follows the code, except in the first case, where it has both.

* `EnsureBucket` resolves the bucket with an empty key, which is always rejected, so no upload and no
  session would ever be granted; the interface (src/storage/driver.go:39-40) promises a directory.
  `Config.ensure` selects one or the other: `Runs.AsWrittenRefusesAll` proves what the code as written
  does, and all invariants hold for both.
* A refused `Initiate` leaves its session row behind.
* `Edit` looks for the file under the row's own bucket and id, not under its path. For a row that borrows
  another row's object the edit of a bucket therefore fails and changes nothing, unless a directory is
  there: then the edit moves the directory, or, when the new place lies inside it, the fallback of `Move`
  leaves an empty object that no row points at (`Integrity.EditExact`).
* `Complete` records the declared size; `DeclaredSize.CompleteSizesIff` says exactly when it is right.
* A chunk body that breaks off, or runs into the handler's size limit (src/api/controllers/multipart/chunk.go:45),
  makes the request fail without deleting what arrived. Under an index that is already recorded this part
  replaces the chunk and is not held against the cap that README.md:247-248 promises: sessions and the blobs
  completed from them can exceed it (`UploadCap.CapOverRuns` says exactly when,
  `Witnesses.RunOverCap` and `Witnesses.CapOvershot` give the runs).
* Rows share an object when their paths are equal as texts. An edit of a shared row from `a/b` to `a/b/` leaves
  its object where it is and gives it a second path, so that a later deletion counts too few rows
  (`Integrity.EditKeepsIff` counts it among the edits that break the store).
* Above a page size of 100 the page count uses a size the query does not
  (`Pagination.PagesBeyondLimit`). A page number whose offset does not fit 64 bits may return rows again
  (`Pagination.LaterPageNotEmpty`), and a page size near the 64-bit limit makes the page count negative
  (`Pagination.NegativePages`).
* Two chunk requests that read the list of recorded chunks before either writes it lose an index
  (`Interleaving.LostUpdate`), and a `Complete` that dies between inserting its row and marking its
  session lets a later one put other bytes under that row (`Interleaving.DeathBeforeMark`).
* The rate limiter sends the expiry call once, after a first hit; when it is lost, the counter never
  expires and a client that fills it is locked out (`RateLimit.LockedOut`).
* A size near the 64-bit limit makes the chunk count of Status wrap around (`Assembly.TotalIsCeiling`).
* `DeletedAt` is a plain field (src/models/blob.go:26), so deleting a row is final.

## Model

| member | source | states |
|---|---|---|
| Runs.IntegrityOverRuns | src/services/blob_service.go:117-369 | over every sequential run of all nine operations from an empty store, every row opens and streams bytes that hash to its hash, and every object outside `tmp` is the object of some row |
| Runs.StepKeepsInv | src/services/multipart_service.go:78-387 | every operation keeps the invariant: rows at their own places under one path a place, every row's object stored with the row's hash, every object referenced, open sessions without a trace among rows and blobs |
| Runs.AsWrittenRefusesAll | src/storage/filesystem.go:245-251 | with the driver's own EnsureBucket no upload and no session is granted for any bucket, and a refused Initiate leaves its session row |
| Runs.OpenRow | src/services/blob_service.go:324-342 | in a store in order OpenFile streams exactly the stored object, of the announced size, and its hash is the row's |
| Runs.UploadsThenRerun | src/services/blob_service.go:142-154 | over any run of uploads after an interrupted deletion, every other row has a stored object at every state if and only if each upload is not accepted, does not run through the deleted row's place, or reuses a stored object; running the deletion again then restores the full invariant |
| Integrity.UploadOutcome | src/services/blob_service.go:117-188 | an accepted upload stores its own object, or, when deduplication finds something at the place of the row with that hash, withdraws its copy without a trace and records the old path and size; nothing else changes |
| Integrity.UploadRefused | src/services/blob_service.go:118-128 | an upload is refused, and changes nothing, when its bucket is invalid, is rejected by the driver, cannot be created, or runs through an object |
| Integrity.UploadAnswer | src/services/blob_service.go:117-188 | what an upload answers in any state, in the order of its checks; it adds a row exactly when it succeeds and changes no other |
| Integrity.UploadInOrder | src/services/blob_service.go:142-154 | in a store in order, deduplication reuses whatever row has the same hash, and that row's object is stored |
| Integrity.UploadKeepsIff | src/services/blob_service.go:117-188 | whatever rows lack their object, an upload keeps the invariant if and only if it is not accepted, its bucket does not run through the place of such a row, or it reuses a stored object |
| Integrity.DropRow | src/services/blob_service.go:299-311 | removing a row removes its object exactly when no other row shares the path, and keeps the invariant |
| Integrity.DeleteKeeps | src/services/blob_service.go:276-295 | deletion keeps the invariant, mends the slack of the deleted row, and succeeds exactly for existing rows |
| Integrity.UnreachableStays | src/services/blob_service.go:276-311 | in any state, an unshared row whose path leads nowhere is neither deleted nor purged |
| Integrity.PathlessGoes | src/services/blob_service.go:299-302 | a row without a path is deleted without a look at the storage |
| Integrity.EditKeepsIff | src/services/blob_service.go:235-272 | an edit keeps the invariant if and only if it does not ask, for a bucket into which stored paths lead, to move an object that other rows share or a directory at the row's own place |
| Integrity.EditRefused | src/services/blob_service.go:254-262 | an edit to a bucket without `..` into which no stored path leads, such as `a/`, `/x` or `a//b`, fails and changes nothing |
| Integrity.EditExact | src/services/blob_service.go:235-272 | the exact condition for an edit to succeed, the row it leaves, and that a failed one changes no row, and no object unless it tries to move a directory into itself; one to a bucket into which no stored path leads changes nothing |
| Integrity.EditMove | src/services/blob_service.go:254-265 | when no directory is moved, the move succeeds exactly when the row holds its own object and nothing is in the way at the new place; then exactly that object moves |
| Integrity.EditMoveDirectory | src/storage/filesystem.go:216-241 | otherwise the directory moves with everything in it, or the fallback leaves an empty object at the new place |
| Integrity.RowLocation | src/services/blob_service.go:63-69 | unless something else is at the row's place, existence and deletion through the stored path act on the row's own object |
| References.MoveOwn | src/services/blob_service.go:254-272 | moving an object only one row references keeps references and objects in step |
| References.DropShared | src/services/blob_service.go:303-309 | dropping one of several sharers keeps references and objects in step with the object left in place |
| MultipartIntegrity.UploadChunkOutcome | src/services/multipart_service.go:110-189 | a chunk that passes its checks is stored under its index and recorded once; one that fails them is deleted, even when its index was recorded before; a body that breaks off is answered with an error and leaves what arrived under its index, recorded or not; nothing else changes |
| MultipartIntegrity.CompleteOutcome | src/services/multipart_service.go:245-345 | Complete fails without a trace outside the session's temporary objects, for a missing chunk, a wrong hash or something in the way at the blob's place, and otherwise stores exactly the assembled bytes, adds the row, marks the session and removes its temporary objects |
| MultipartIntegrity.CompleteKeeps | src/services/multipart_service.go:245-345 | Complete keeps the invariant, whether it succeeds or fails |
| MultipartIntegrity.CompleteRefused | src/services/multipart_service.go:246-263 | a request without a final hash, for an unknown, foreign, completed or empty session is refused without a trace |
| MultipartIntegrity.CompleteTaken | src/services/multipart_service.go:325-330 | in any state, a session whose id is a row already is never completed |
| MultipartIntegrity.PromoteTree | src/services/multipart_service.go:309-332 | the move succeeds exactly when nothing is in the way and leaves no trace when it fails; promotion makes the assembled file the blob and removes the session's other temporary objects only |
| MultipartIntegrity.TempBucketNeverCompletes | src/services/multipart_service.go:307-312 | a session for the bucket `tmp` is never completed, in any state |
| Text.FoldsIff | src/services/multipart_service.go:148-148 | against lower-case hexadecimal text, the hash comparison holds if and only if the lengths agree and every character is the same or a capital A to F for the letter 32 above it |
| Witnesses.SessionUploadLost | src/storage/filesystem.go:254-263 | in any tree, the cleanup of a session takes a readable upload with it exactly if the upload's place lies in the directory of that session, and leaves any other as it is |
| Witnesses.EditMovesDirectory | src/services/blob_service.go:258-265 | a run after which an edit of a borrowing row's bucket succeeds, the row no longer opens, and another row has lost its object |
| Witnesses.AttachesToDirectory | src/services/blob_service.go:145-152 | a run in which an upload after an interrupted deletion attaches to a directory at the deleted row's place |
| Witnesses.AnswersPart | src/services/blob_service.go:126-154 | a run of three uploads in which the plain store refuses the last and the deduplicating one takes it |
| Witnesses.CapOvershot | src/services/multipart_service.go:126-130 | from any state in order with a new session: two chunks within the cap are recorded, the first is sent again with a longer body that breaks off, the session is over the cap, and Complete stores a blob larger than the cap |
| Witnesses.RunOverCap | src/api/controllers/multipart/chunk.go:44-61 | a run from an empty store, within the chunk limits throughout, after which a session's recorded chunks take more than the cap |
| MultipartIntegrity.CleanupExact | src/repository/multipart_repo.go:52-59 | after a cleanup a session is left if and only if it is completed or was opened at the cutoff or later, unchanged, and its temporary objects stay exactly then; the number of the others is returned, and all rows and blobs stay |
| MultipartIntegrity.InitiateKeeps | src/services/multipart_service.go:78-94 | opening a session keeps the invariant, granted or refused |
| MultipartIntegrity.InitiateTaken | src/services/multipart_service.go:78-89 | opening a session under an id that is taken changes nothing |
| Expiry.PurgeExact | src/repository/blob_repo.go:107-114 | after a purge at some moment a row is left if and only if it has no expiry or a later one, unchanged, and the number of the others is returned; an object survives if and only if a row that is left points at it, although sharers are recounted after every deletion |
| Expiry.PurgeOrderIrrelevant | src/repository/blob_repo.go:107-114 | the order in which expired rows are listed changes neither the outcome nor the count |
| Expiry.CrashedDeleteInv | src/services/blob_service.go:276-311 | wherever a deletion stops, in a store where some rows may lack their objects already, only its own row may lack its object besides them; exactly that object is gone or none |
| Expiry.DeleteConverges | src/services/blob_service.go:276-295 | a deletion interrupted any number of times, wherever each attempt stops, and then run to its end reaches the rows and objects of an uninterrupted one |
| Expiry.CrashedPurgeInv | src/services/blob_service.go:346-369 | wherever a purge stops, only the row it was removing may lack its object, besides remaining rows that lacked theirs before |
| Expiry.PurgeConverges | src/services/blob_service.go:346-369 | a purge attempted any number of times up to some moment, each attempt stopping anywhere and listing what has expired by then, and then run to its end, reaches the rows and objects of one uninterrupted purge at that moment, and a store in order |
| Expiry.UploadThenRerun | src/services/blob_service.go:145-152 | the exact condition under which an upload between the crash and the rerun leaves every row but the one in doubt with its object; the rerun then restores the invariant |
| Dedup.DeduplicationInvisible | src/services/blob_service.go:142-154 | from empty stores and under a collision-free hash, a deduplicating and a plain store answer every call of a run alike if and only if no upload goes to a bucket that runs through an object of one store only; they then stream the same bytes for every id |
| Dedup.CallInvisible | src/services/blob_service.go:117-369 | one call served by both stores gets agreeing answers, and keeps the simulation relation, if and only if it is not such an upload |
| Dedup.OrdinaryTogether | src/api/validators/upload.go:21-36 | as long as no bucket has a segment in the form of a UUID, the two stores never part |
| Dedup.BlockedByRows | src/storage/filesystem.go:82-84 | in a store in order, a bucket runs through an object exactly when it runs through the place a row points at |
| Dedup.UploadedRow | src/services/blob_service.go:156-176 | the recorded row carries the uploaded bucket, name, size and hash whether or not the content was deduplicated |
| Shapes.OrdinaryBucketOpen | src/storage/filesystem.go:82-84 | a bucket without a segment in the form of a UUID never runs through an object |
| Shapes.CanonicalIsPlain | src/services/blob_service.go:60-69 | a bucket written the way it is stored, outside `tmp`, is accepted and keeps its first segment |
| RoundTrip.SplitAssembleRoundTrip | src/services/multipart_service.go:110-345 | for any file cut within the limits and any order of chunk requests with retries, wrong and broken bodies included, whose last request for each piece is right, Complete succeeds, and OpenFile streams exactly the file, if and only if nothing is in the way at the blob's place |
| RoundTrip.RequestsStayInside | src/services/multipart_service.go:125-171 | chunk requests change no blob and no directory outside the temporary namespace |
| RoundTrip.OneRequest | src/services/multipart_service.go:126-188 | a request with the header of the true piece is accepted exactly when its body is that piece in full, and what is stored for a piece stays the body of its last request, if that was right or broke off |
| RoundTrip.InitiateOpensFresh | src/services/multipart_service.go:78-94 | Initiate opens the session asked for, with nothing stored for it, and touches no row and no object; the blob's place is free then exactly when the bucket runs through no object |
| UploadCap.CapOverRuns | src/services/multipart_service.go:126-171 | over every sequential run from an empty store, the stored bytes of every session's recorded chunks stay within a positive cap at every state if and only if no body breaks off over a recorded chunk and leaves more there than the cap allows |
| UploadCap.StepKeepsCapIff | src/services/multipart_service.go:78-387 | an operation of any kind keeps every session within the cap if and only if it is no such chunk request |
| UploadCap.WholeBodiesKeepCap | src/services/multipart_service.go:153-171 | when every body arrives in full there is none, so the cap that README.md:247-248 promises holds |
| UploadCap.AcceptedAfterRuns | src/services/multipart_service.go:153-188 | after any sequential run, whatever broke off in it, a chunk that is accepted leaves its session within the cap |
| UploadCap.ChunkAcceptedIff | src/services/multipart_service.go:126-171 | a chunk of an open session is accepted if and only if its body arrives in full, its size is within the chunk limits, its bytes have the announced hash, and the recorded chunks with this one in its place take no more than the cap |
| UploadCap.ChunkAnswer | src/services/multipart_service.go:110-189 | the answer to every chunk request, in the order of the checks: unknown, foreign, marked, no hash, broken off, too small, too large, a header that does not spell the hash of the body, over the cap, or accepted |
| UploadCap.AcceptedCap | src/services/multipart_service.go:138-188 | an accepted chunk is listed, once, and leaves its session within the cap, whether it is new or replaces a larger or smaller one, and whether the session was within the cap before or not |
| UploadCap.ExceptIsRest | src/services/multipart_service.go:156-166 | what the check adds up is the stored bytes of the other recorded chunks |
| UploadCap.TotalFits | src/services/multipart_service.go:156-166 | the running total of the check stays within 64 bits all the way if and only if the recorded chunks with the new one in its place do |
| UploadCap.CappedTotalFits | src/services/multipart_service.go:156-166 | they do for a session within the cap when chunk limit and cap together fit |
| Assembly.CompleteStoresConcatenation | src/services/multipart_service.go:260-312 | Complete succeeds if and only if every recorded chunk is stored, their concatenation in ascending index order has the final hash, and nothing is in the way at the blob's place, and stores that concatenation |
| Assembly.CompleteAnswer | src/services/multipart_service.go:245-345 | the answer to every completion, in the order of the checks: no hash, unknown, foreign, marked, nothing recorded, a chunk not stored, a final hash that does not spell the hash of the concatenated chunks, something in the way, or the new row |
| Assembly.CompleteOrderIndependent | src/services/multipart_service.go:260-264 | the recorded order of the chunks changes neither result, rows nor tree |
| Assembly.AssembleConcat | src/services/multipart_service.go:278-290 | assembly succeeds exactly when all listed chunks are stored, and yields them one after the other |
| Assembly.SortRange | src/services/multipart_service.go:264-264 | indices that are just 0 to n-1, in any order, are assembled as 0 to n-1 |
| Assembly.MissingExact | src/services/multipart_service.go:222-227 | Status lists exactly the unrecorded indices below the count, in ascending order, each once |
| Assembly.StatusExact | src/services/multipart_service.go:200-234 | what Status answers: unknown and foreign sessions and more than 10000 chunks are turned away; otherwise the size divided by the chunk size (102400 when none is given), rounded up, and exactly the unrecorded indices below it, ascending |
| Assembly.NothingMissing | src/services/multipart_service.go:200-234 | when no recorded index lies outside the count, Status has nothing missing if and only if Complete assembles the chunks 0 to count-1 |
| Assembly.TotalIsCeiling | src/services/multipart_service.go:218-218 | the chunk count is the size divided by the chunk size, rounded up, if and only if size plus chunk size minus one fits 64 bits; beyond that Status lists nothing |
| DeclaredSize.CompleteSizesIff | src/services/multipart_service.go:314-327 | a successful Complete keeps row sizes true if and only if the session declared as many bytes as its recorded chunks take |
| DeclaredSize.AssembledLength | src/services/multipart_service.go:278-290 | the assembled file is as long as its chunks together |
| Accounting.StorageOverRuns | src/api/controllers/upload.go:97-103 | over every run of direct uploads, edits, deletes and purges from an empty store, the stored bytes are object by object the row sizes over distinct paths, and never exceed the storage limit |
| Accounting.GetTotalStorageSize | src/functions/validation.go:61-74 | the total is the stored bytes, and there is none without a storage base |
| Accounting.Walk | src/functions/validation.go:63-72 | the walk through the directories adds up every file below a place exactly once |
| Accounting.BytesAreRowSizes | src/services/blob_service.go:130-176 | with true row sizes, the sizes of the objects are the row sizes over distinct paths |
| Accounting.UploadSizes | src/services/blob_service.go:130-176 | an upload keeps row sizes true and adds at most its own length to the stored bytes |
| Accounting.EditSizes | src/services/blob_service.go:235-272 | an edit keeps row sizes true and the stored bytes the same |
| Accounting.PathsOverRuns | src/services/blob_service.go:142-176 | with deduplication on and no change of bucket, rows share a path exactly when they share a hash, over every run |
| Interleaving.CommittedBlobsIntact | src/services/multipart_service.go:110-387 | in every interleaving of chunk requests, completions (one at a time for a session) and cleanups, which may act on outdated reads, a committed blob is stored, its hash is its row's, and a final hash that a client sent for this session spells it |
| Interleaving.StepSafe | src/services/multipart_service.go:245-332 | every single step of any request keeps that safety invariant |
| Interleaving.RowsStay | src/services/multipart_service.go:314-330 | no step of any request changes a row or removes one, a second completion of a session included |
| Interleaving.RunChecked | src/services/multipart_service.go:147-151 | in every interleaving, a chunk request about to record its index has sent bytes with the hash it announced |
| Interleaving.TurnedAway | src/services/multipart_service.go:110-124 | strangers, requests for a marked session, and requests without a hash or without recorded chunks begin nothing |
| Interleaving.SpliceExact | src/storage/filesystem.go:85-94 | a write through an open file changes the bytes it covers and no others, and a gap before it reads as zeros |
| Interleaving.LostUpdate | src/repository/multipart_repo.go:36-44 | a run in which two chunk requests lose one index although both chunks are stored, after which Complete is turned away and nothing is committed |
| Interleaving.DeathBeforeMark | src/services/multipart_service.go:325-331 | from any state in order, a Complete that dies does no harm unless it has inserted its row and its session is still there to be marked; then the client can send the recorded chunks again and complete again, and any bytes with another hash land under the row |
| Interleaving.CommittedAlone | src/services/multipart_service.go:245-327 | there are runs that lead to such a state: a row is inserted and its session is still open |
| Sequential.ChunkCall | src/services/multipart_service.go:110-189 | every sequential chunk request, accepted, rejected, broken off or turned away, is a run of the steps of the interleaving model with the same objects, sessions and rows |
| Sequential.CompleteCall | src/services/multipart_service.go:245-345 | so is every sequential completion, whatever comes of it |
| Sequential.InitiateCall | src/services/multipart_service.go:78-94 | so is opening a session |
| Sequential.CleanupCall | src/services/multipart_service.go:371-387 | so is cleaning up any list of sessions |
| Paths.ResolveStaysInside | src/storage/filesystem.go:25-71 | for any base, the empty one included, and any working directory, an accepted bucket and key resolve to the base followed by their cleaned segments, and ensureInside never rejects them |
| Paths.InsideIff | src/storage/filesystem.go:25-43 | ensureInside lets any target through if and only if its segments start with those of the base |
| Paths.AbsText | src/storage/filesystem.go:26-33 | a path made absolute is written from its cleaned segments |
| Paths.AcceptedSegments | src/storage/filesystem.go:47-59 | a component is accepted if and only if it is relative and cleans to at least one segment, none of them `..` |
| Paths.StoredPathReachable | src/services/blob_service.go:60-69 | for an accepted bucket without `..`, the stored path leads back to the object if and only if the bucket's first segment is not a lone dot and is not followed by a slash that ends or doubles it, and otherwise leads nowhere |
| Paths.StoredPathLeads | src/services/blob_service.go:60-69 | for any bucket without `..`, the stored path leads to the bucket's segments and the id if the driver accepts the bucket and its first segment is kept, and nowhere otherwise |
| Buckets.ValidatedBucket | src/services/blob_service.go:95-113 | a bucket that passes validateBucketName is relative and has no `..` segment, although the check reads the trimmed text |
| Buckets.ValidatedIff | src/services/blob_service.go:95-113 | validateBucketName accepts exactly a core between blanks that does not start with a slash and holds no backslash, no `..` and no `//` |
| Buckets.ValidatedBucketAccepted | src/storage/filesystem.go:47-59 | the driver accepts a validated bucket if and only if it has a segment that is neither empty nor a dot |
| Buckets.UploadReadableIff | src/services/blob_service.go:117-188 | for any bucket and any tree, a successful upload with its own object can be found and opened through its row if and only if the bucket's first segment is kept |
| Buckets.UnreadableStays | src/services/blob_service.go:276-369 | when the first segment is not kept, the row can be neither deleted nor purged: the attempt fails and changes nothing |
| Paths.LocateCanonical | src/services/blob_service.go:63-69 | a canonical stored path, split by BucketKey, resolves to its own segments |
| Paths.LocateInjective | src/services/blob_service.go:63-69 | different canonical stored paths lead to different objects |
| Refinement.TreeRefinesMap | src/storage/driver.go:12-44 | every run of Put, Delete, Move, EnsureBucket and RemoveTree on the tree in which nothing is hidden from the map is a run on a plain map of objects with the same results, and no object is ever a proper prefix of another |
| Refinement.LockstepIff | src/storage/driver.go:12-44 | tree and map agree at every step of a run, result and objects alike, if and only if no step turns on a directory the map cannot see |
| Refinement.StepRefinesIff | src/storage/filesystem.go:77-263 | for every operation, the exact condition under which tree and map agree: no object is put or moved where a directory leads to no object, no such directory with entries is deleted, and no directory is moved |
| Refinement.QueriesAgreeIff | src/storage/filesystem.go:110-149 | Open answers for the map's objects; Stat and Exists do so if and only if the place is not a directory |
| Trees.WriteEffect | src/storage/filesystem.go:77-107 | writing stores exactly the given bytes at exactly that place, or fails and changes nothing; both conditions are exact |
| Trees.PutEffect | src/storage/filesystem.go:77-95 | Put fails exactly for a rejected key, a place that is not free, or a reader that fails; only in the last case something is left, namely what was read, in place of the object that was there |
| Trees.RemoveEffect | src/storage/filesystem.go:152-162 | Delete removes exactly that object, a missing one is no error, and a failure changes nothing |
| Trees.RenameEffect | src/storage/filesystem.go:207-242 | the exact condition for Move to succeed; it relocates exactly that object or the whole directory, and a failed one changes no object, except that a directory which cannot be renamed to a free place leaves an empty object there |
| Trees.PutThenDeleteTree | src/storage/filesystem.go:77-204 | putting an object in a new place and deleting it again leaves the same objects and no new directory |
| Trees.RemoveAllEffect | src/storage/filesystem.go:254-263 | RemoveTree removes exactly the objects whose segments start with the prefix, never a sibling with a longer name |
| Trees.PruneEffect | src/storage/filesystem.go:166-204 | pruning touches no file and not the base, and keeps the tree well formed |
| Trees.PruneOnlyEmpty | src/storage/filesystem.go:188-202 | a pruned directory lies on the way to the removed object and has no object below it |
| Trees.RemoveLeavesNoEmpty | src/storage/filesystem.go:152-204 | deleting an object leaves no directory empty that was not empty before |
| Trees.RenameLeavesNoEmpty | src/storage/filesystem.go:207-242 | a successful Move, of an object or of a directory, leaves no directory empty that was not empty before it moved |
| Trees.ObjectsPrefixFree | src/storage/filesystem.go:77-107 | in a well-formed tree no object lies below another |
| Trees.EnsureBucketAlwaysFails | src/storage/filesystem.go:245-251 | EnsureBucket as written rejects every bucket and changes nothing |
| FilesystemDrivers.FilesystemDriver.Put | src/storage/filesystem.go:77-95 | the tree changes in place as the specification of Put says, with the same error |
| FilesystemDrivers.FilesystemDriver.Create | src/storage/filesystem.go:98-107 | an empty object is created and its handle returned, or the error of Put |
| FilesystemDrivers.FilesystemDriver.Delete | src/storage/filesystem.go:152-162 | unlink and prune in place, as specified |
| FilesystemDrivers.FilesystemDriver.PruneEmptyParents | src/storage/filesystem.go:166-204 | the climbing loop terminates and does what the bounded recursion says |
| FilesystemDrivers.FilesystemDriver.Move | src/storage/filesystem.go:207-242 | rename and prune, or else the fallback that creates and copies, in place as specified |
| FilesystemDrivers.FilesystemDriver.RemoveTree | src/storage/filesystem.go:254-263 | the subtree goes in place, as specified |
| FilesystemDrivers.FilesystemDriver.EnsureBucket | src/storage/filesystem.go:245-251 | both forms of EnsureBucket, in place |
| FilesystemDrivers.FilesystemDriver.Open | src/storage/filesystem.go:110-120 | the bytes of the object, or the error |
| FilesystemDrivers.FilesystemDriver.Stat | src/storage/filesystem.go:123-133 | the size of the object, or the error |
| FilesystemDrivers.FilesystemDriver.Exists | src/storage/filesystem.go:136-149 | whether something is stored at the key, a directory included |
| Repositories.BlobRepository.GetByHash | src/repository/blob_repo.go:35-42 | a row with the hash and none of them is newer, or none exactly when no row has the hash |
| Repositories.BlobRepository.FindExpired | src/repository/blob_repo.go:107-114 | exactly the rows with an expiry up to the cutoff, each once |
| Repositories.BlobRepository.Create | src/repository/blob_repo.go:23-25 | a row is added unless its id is taken |
| Repositories.MultipartRepository.UpdateChunks | src/repository/multipart_repo.go:36-44 | the whole list of one session is overwritten |
| Repositories.MultipartRepository.FindIncompleteOlderThan | src/repository/multipart_repo.go:52-59 | exactly the sessions that are not completed and were opened before the cutoff, each once |
| BlobServices.BlobService.Upload | src/services/blob_service.go:117-188 | rows and tree change in place to the specified state with the specified result, for the row GetByHash picked |
| BlobServices.BlobService.Edit | src/services/blob_service.go:235-272 | field by field, with the move in between, to the specified state |
| BlobServices.BlobService.RemovePhysicalIfUnshared | src/services/blob_service.go:299-312 | the object goes unless another row shares the path |
| BlobServices.BlobService.Delete | src/services/blob_service.go:276-295 | the specified state and result of a deletion |
| BlobServices.BlobService.OpenFile | src/services/blob_service.go:324-342 | row, bytes and size, or the error, changing nothing |
| BlobServices.BlobService.PurgeExpired | src/services/blob_service.go:346-369 | the loop over the rows found expired reaches the specified state and count |
| MultipartServices.MultipartService.Initiate | src/services/multipart_service.go:78-94 | the session row is added and the chunk namespace ensured, in that order |
| MultipartServices.MultipartService.AddStored | src/services/multipart_service.go:156-166 | the loop adds the stored sizes of the other recorded chunks to the written bytes |
| MultipartServices.MultipartService.Verify | src/services/multipart_service.go:132-171 | the first failing check, in the order of the code |
| MultipartServices.MultipartService.UploadChunk | src/services/multipart_service.go:110-189 | the specified state and result of a chunk request |
| MultipartServices.MultipartService.Status | src/services/multipart_service.go:200-234 | the loops compute the specified chunk count and missing list |
| MultipartServices.MultipartService.CopyChunks | src/services/multipart_service.go:278-290 | appending chunk after chunk to the created file assembles them, or stops at the first one missing |
| MultipartServices.MultipartService.Complete | src/services/multipart_service.go:245-345 | the specified state and result of a completion |
| MultipartServices.MultipartService.CleanupAbandoned | src/services/multipart_service.go:371-387 | the loop over the stale sessions reaches the specified state and count |
| RateLimit.RateBounds | src/api/middleware/ratelimit.go:52-68 | in any timed run, with expiry calls delayed or lost, a counter lifetime admits at most max requests of a client and any half-open interval one window long at most twice max |
| RateLimit.AdmittedIff | src/api/middleware/ratelimit.go:60-66 | after any run, a request is let through if and only if its hit is answered and fewer than max hits were counted in its lifetime before it |
| RateLimit.LifeAdmits | src/api/middleware/ratelimit.go:52-68 | a lifetime in which every hit is answered lets through exactly the smaller of max and its number of hits |
| RateLimit.LifeLasts | src/api/middleware/ratelimit.go:54-58 | a lifetime whose first hit is answered lasts until its expiry call arrives and a window longer, and no longer, whatever other calls arrive |
| RateLimit.UnansweredLifeLasts | src/api/middleware/ratelimit.go:56-58 | a lifetime whose first hit is not answered never ends, since no expiry call is sent |
| RateLimit.WindowReopens | src/api/middleware/ratelimit.go:56-59 | once the expiry call of a counter has arrived, the client's next request after the window is admitted, whatever was refused meanwhile |
| RateLimit.LockedOut | src/api/middleware/ratelimit.go:56-60 | a client with a full counter whose expiry call never arrives is never admitted again |
| RateLimit.TwoLives | src/api/middleware/ratelimit.go:56-59 | admissions of one client within one window length belong to two consecutive lifetimes |
| RateLimit.RateLimiter.Middleware | src/api/middleware/ratelimit.go:52-68 | a request is let through if and only if it is answered and fewer than max hits were counted in its lifetime before it, and asks for an expiry call if and only if it is answered and there were none; it is one hit of the run so far, whose log grows exactly when it is let through |
| RateLimit.RateLimiter.PExpire | src/api/middleware/ratelimit.go:57-59 | an expiry call, whenever it arrives, is one expiry of the run so far and admits nobody |
| RateLimit.LimiterBounded | src/api/middleware/ratelimit.go:52-68 | whatever calls a limiter has served in time order, its log is within the bounds |
| Pagination.PagesPartition | src/services/blob_service.go:201-218 | for page sizes 1 to 100 the pages 1 to Pages are the filtered list once each in order if and only if rounding the count up fits 64 bits; a later page is empty exactly when its offset, wrapped to 64 bits, is not before the end of the list, so whenever the offset fits |
| Pagination.PagesBeyondLimit | src/services/blob_service.go:206-209 | above 100 the pages 1 to Pages are the first 100 times Pages rows, and are all rows if and only if there are no more than that; no page is counted exactly when rounding up does not fit 64 bits |
| Pagination.LaterPageNotEmpty | src/repository/blob_repo.go:78-78 | page 4611686018427387905 of size 4 is the first page again |
| Pagination.NegativePages | src/services/blob_service.go:206-209 | two rows and the largest page size give -1 pages |
| Pagination.List | src/repository/blob_repo.go:52-82 | clamping and adding conditions step by step yields the specified page and the number of all matches |
| Pagination.ConditionsCompose | src/repository/blob_repo.go:64-70 | the conditions applied one after the other select exactly the rows that match both |
| Pagination.MatchesIff | src/repository/blob_repo.go:65-70 | a row is listed if and only if it is in the bucket asked for and its name, letter case aside, contains the text searched for, `_` standing for any character, when that holds no `%` and no backslash |
| Pagination.LikeIff | src/repository/blob_repo.go:68-70 | for any pattern, the text can be cut into parts, one for each mark of the pattern: `%` any text, `_` any character, a backslash the next character itself |
| Pagination.FilteredExact | src/repository/blob_repo.go:64-70 | the filtered list is exactly the rows that match, in their order |
| Pagination.PageExact | src/repository/blob_repo.go:54-78 | what a page holds as far as its offset fits 64 bits, page numbers below 1 meaning 1, page sizes below 1 meaning 20 and above 100 meaning 100 |
| SignedUrl.SignatureBinds | src/auth/signed_url.go:28-47 | a signature is accepted for a request if and only if id and action are the signed ones, the expiry text reads as the signed expiry, and that has not passed |
| SignedUrl.VerifiedIff | src/auth/signed_url.go:34-47 | a request is accepted if and only if its expiry reads as a number that has not passed and its signature spells the MAC of its id, action and expiry, in capitals or not, between blanks or not; one without a signature is refused |
| SignedUrl.IssuedUrlWorks | src/api/controllers/sign.go:53-67 | an issued URL, with its expiry printed in decimal, is accepted exactly until it expires, for every 64-bit expiry |
| SignedUrl.PayloadInjective | src/auth/signed_url.go:28-30 | different triples of colon-free id, colon-free action and expiry have different payloads |
| Decimal.ParsePrint | src/auth/signed_url.go:39-42 | reading back a printed 64-bit integer gives that integer |
| Decimal.ParsesIff | src/auth/signed_url.go:39-42 | a text reads as a number if and only if it is that number's digits, after a sign and zeros if any, and the number fits 64 bits |
| Int64.RoundsUpIff | src/services/blob_service.go:208-208 | dividing and rounding up in 64 bits gives the ceiling if and only if the sum fits, and otherwise nothing positive |

## Left out

- I/O failures of the storage (full disks, failed writes, permissions, symlinks): the sequential model has the failures visible in the tree and bodies of chunk requests that break off; an upload's own copy reads a form the handler has parsed in full before (src/api/controllers/upload.go:66), so its reader does not fail.
- UploadCap.CapOverRuns: is about sequential runs; where requests interleave, the size and cap checks may go either way, since they measure files that others may be writing.
- Interleaving.DeathBeforeMark: the bodies sent again need a hash that is not empty and differs from the row's when taken of all of them, which any collision-free hash allows.
- The copy fallback of Move across file systems: rename fails only for the reasons visible in the tree, so of the fallback only the case of a directory is reached.
- FilesystemDrivers.FilesystemDriver.Stat: the size of a directory is reported as 0, because what the file system reports is not specified.
- FilesystemDrivers.FilesystemDriver.Put: the driver works on segments below the base; the absolute paths and ensureInside are modelled by Paths.Resolve and connected by Paths.ResolveStaysInside, and the caller's size hint, which the code ignores, is dropped.
- Integrity.UploadOutcome: MIME type, visibility, metadata, view and download counters, update times and events are not part of the rows.
- Repositories.BlobRepository.GetByHash: which of several equally recent rows is picked stays open, so every result holds for each choice.
- Interleaving.CommittedBlobsIntact: at most one Complete at a time runs for a session, and reads of a chunk under a concurrent writer may return anything, which allows more than the code does; concurrent Complete calls on one session take no lock and are excluded.
- A Delete that runs concurrently with a deduplicating Upload is not modelled: no lock orders them.
- RateLimit.RateBounds: requests are ordered as Redis executes them, and the time of an admission is the time of its increment; the client address is a parameter.
- Pagination.List: rows are given in the query's order, assumed strict, and are no more than 64 bits count; an offset that is not positive leaves OFFSET out of the query, as the database library does; LOWER and case folding are modelled for ASCII text.
- SignedUrl.SignatureBinds: rests on a keyed hash without collisions; reading the secret and the query string is not modelled.
- Text encodings: strings are sequences of characters.
- Accounting.StorageOverRuns: the storage base exists; without one the walk fails and the handler then applies no limit.
- Accounting.Walk: the files do not change during the walk, and their order, which the sum does not depend on, is left open.
- HTTP handlers, routing, form parsing, authentication, API keys, configuration, logging, metrics, the event bus and the background schedulers.
- Range requests and MIME sniffing, which are library code.
