/** Deduplication is invisible: a store that deduplicates and one that does not answer the
    same calls alike and stream the same bytes. */
module Dedup {
  import opened Wrappers
  import opened Text
  import opened Paths
  import opened Trees
  import opened Store
  import opened BlobModel
  import opened Shapes
  import opened Integrity
  import opened Expiry
  import opened Runs
  import opened Accounting
  import opened RoundTrip
  import References

  /** A call a client can make on blobs; an edit here changes fields but not the bucket. */
  datatype Call =
    | UploadCall(upload: UploadInput, id: UUID, now: int)
    | EditCall(id: UUID, expiresAt: Option<int>, filename: Option<string>)
    | DeleteCall(id: UUID)
    | PurgeCall(now: int)
    | GetCall(id: UUID)
    | OpenCall(id: UUID)

  datatype Answer =
    | RowAnswer(row: Result<Blob, Failure>)
    | DoneAnswer(done: Result<(), Failure>)
    | CountAnswer(removed: nat)
    | FileAnswer(file: Result<(Blob, Bytes, nat), Failure>)

  /** The store may go from s to s' on this call and give this answer; which row GetByHash
      picks and how a query is ordered is the database's choice. */
  ghost predicate Serves(cfg: Config, s: State, call: Call, s': State, answer: Answer) {
    match call
    case UploadCall(input, id, now) => exists pick: Option<UUID> ::
      && LatestWithHash(s.rows, cfg.sha(input.content), pick)
      && Served(Upload(cfg, s, input, id, now, pick), s', answer)
    case EditCall(id, expiresAt, filename) => Served(Edit(s, id, EditInput(expiresAt, None, filename)), s', answer)
    case DeleteCall(id) => s' == DeleteBlob(s, id).state && answer == DoneAnswer(DeleteBlob(s, id).result)
    case PurgeCall(now) => exists order: seq<UUID> :: PurgeServed(s, now, order, s', answer)
    case GetCall(id) => s' == s && answer == RowAnswer(if id in s.rows then Ok(s.rows[id]) else Err(NotFound))
    case OpenCall(id) => s' == s && answer == FileAnswer(OpenFile(s, id))
  }

  ghost predicate Served(r: Reply<Blob>, s': State, answer: Answer) {
    s' == r.state && answer == RowAnswer(r.result)
  }

  ghost predicate PurgeServed(s: State, now: int, order: seq<UUID>, s': State, answer: Answer) {
    && Lists(order, Expired(s.rows, now))
    && s' == PurgeExpired(s, order).state && answer == CountAnswer(PurgeExpired(s, order).removed)
  }

  ghost predicate Callable(s: State, call: Call) {
    call.UploadCall? ==> UploadTarget(call.upload.bucket) && FreshId(s, call.id)
  }

  /** Rows that agree on everything but where their bytes are kept. */
  predicate RowsAgree(a: Blob, b: Blob) {
    a.(path := "") == b.(path := "")
  }

  predicate AnswersAgree(a: Answer, b: Answer) {
    match (a, b)
    case (RowAnswer(Ok(x)), RowAnswer(Ok(y))) => RowsAgree(x, y)
    case (FileAnswer(Ok(x)), FileAnswer(Ok(y))) => RowsAgree(x.0, y.0) && x.1 == y.1 && x.2 == y.2
    case _ => a == b
  }

  ghost predicate TablesAgree(a: Rows, b: Rows) {
    a.Keys == b.Keys && forall id :: id in a ==> RowsAgree(a[id], b[id])
  }

  /** The simulation relation: both stores are in order and their rows agree. */
  ghost predicate Alike(sha: Bytes -> string, a: State, b: State) {
    && Inv(sha, a) && Inv(sha, b)
    && SizesTrue(a.rows, Blobs(a.tree)) && SizesTrue(b.rows, Blobs(b.tree))
    && TablesAgree(a.rows, b.rows)
  }

  /** Agreeing rows stream the same bytes, since the bytes hash alike. */
  lemma SameBytes(sha: Bytes -> string, a: State, b: State, id: UUID)
    requires CollisionFree(sha) && Alike(sha, a, b)
    ensures AnswersAgree(FileAnswer(OpenFile(a, id)), FileAnswer(OpenFile(b, id)))
    ensures id in a.rows ==> OpenFile(a, id).Ok? && OpenFile(b, id).Ok?
  {
    hide Inv, SizesTrue, OpenFile, Home, Blobs;
    if id in a.rows {
      OpenRow(sha, a, id);
      OpenRow(sha, b, id);
      var x, y := Blobs(a.tree)[Home(a.rows[id])], Blobs(b.tree)[Home(b.rows[id])];
      assert RowsAgree(a.rows[id], b.rows[id]);
      assert EqualFold(sha(x), sha(y));
    } else {
      OpenMissing(a, id);
      OpenMissing(b, id);
    }
  }

  lemma OpenMissing(s: State, id: UUID)
    requires id !in s.rows
    ensures OpenFile(s, id) == Err(NotFound)
  {
  }

  /** The row an upload records says what was uploaded, deduplicated or not. */
  lemma UploadedRow(cfg: Config, s: State, input: UploadInput, id: UUID, now: int, pick: Option<UUID>)
    requires CollisionFree(cfg.sha) && Inv(cfg.sha, s) && SizesTrue(s.rows, Blobs(s.tree))
    requires UploadTarget(input.bucket) && FreshId(s, id) && LatestWithHash(s.rows, cfg.sha(input.content), pick)
    ensures var r := Upload(cfg, s, input, id, now, pick);
      if Accepted(cfg, s, input.bucket) then
        && r.result.Ok? && r.state.rows == s.rows[id := r.result.value]
        && RowsAgree(r.result.value,
          Blob(input.bucket, input.filename, |input.content|, cfg.sha(input.content), "", input.expiresAt, now))
      else
        r.state == s && r.result == Err(if ValidBucketName(input.bucket) then BucketFailed else InvalidBucket)
  {
    hide InvExcept, Shaped, Blobs, Temps, UploadTarget, Home, Upload, BlobObject, Accepted, FreshId, EqualFold,
      SizesTrue;
    if Accepted(cfg, s, input.bucket) {
      UploadInOrder(cfg, s, input, id, now, pick);
      if cfg.dedup && pick.Some? {
        StoredRow(cfg.sha, s, pick.value);
        SameHash(cfg.sha, Blobs(s.tree)[Home(s.rows[pick.value])], input.content);
      }
    } else {
      InvParts(cfg.sha, s, NOBODY);
      UploadRefused(cfg, s, input, id, now, pick);
    }
  }

  /** A row of a store in order says what its object is. */
  lemma StoredRow(sha: Bytes -> string, s: State, id: UUID)
    requires Inv(sha, s) && SizesTrue(s.rows, Blobs(s.tree)) && id in s.rows
    ensures var home := Home(s.rows[id]);
      home in Blobs(s.tree) && sha(Blobs(s.tree)[home]) == s.rows[id].hash && s.rows[id].size == |Blobs(s.tree)[home]|
  {
    hide Shaped, Blobs, Home, RowsCanonical, SessionsOk;
    RefHome(s.rows, id);
  }

  lemma SameHash(sha: Bytes -> string, x: Bytes, y: Bytes)
    requires CollisionFree(sha) && sha(x) == sha(y)
    ensures x == y
  {
    assert EqualFold(sha(x), sha(y));
  }

  /** The bucket runs through an object of one store and through none of the other. */
  predicate Diverges(cfg: Config, s: State, t: State, bucket: string) {
    && ValidBucketName(bucket) && ValidComponent(bucket) && cfg.ensure == AsPromised
    && Blocked(s.tree, bucket) != Blocked(t.tree, bucket)
  }

  predicate CallDiverges(cfg: Config, s: State, t: State, call: Call) {
    call.UploadCall? && Diverges(cfg, s, t, call.upload.bucket)
  }

  /** In a store in order, a bucket runs through an object exactly when it runs through the
      place a row points at. */
  lemma BlockedByRows(sha: Bytes -> string, s: State, bucket: string)
    requires Inv(sha, s) && PlainBucket(bucket)
    ensures Blocked(s.tree, bucket) <==> exists id :: id in s.rows && Home(s.rows[id]) <= Segments(bucket)
  {
    hide Home, RowsCanonical, SessionsOk, Shaped;
    InvParts(sha, s, NOBODY);
    if Blocked(s.tree, bucket) {
      var f :| f in s.tree.files && f <= Segments(bucket);
      NotTempBefore(s.tree, f, Segments(bucket));
      assert f in Blobs(s.tree);
      assert References.Referenced(Refs(s.rows), f);
      var id: UUID :| id in Refs(s.rows) && Refs(s.rows)[id].home == f;
      assert id in s.rows && Home(s.rows[id]) == f;
    }
    if id :| id in s.rows && Home(s.rows[id]) <= Segments(bucket) {
      TightRow(sha, s, NOBODY, id);
    }
  }

  lemma NotTempBefore(t: Tree, f: Path, segs: Path)
    requires Valid(t) && f in t.files && f <= segs && segs[0] != "tmp"
    ensures !IsTemp(f)
  {
    assert f[0] == segs[0];
  }

  /** One call served by both stores is answered alike, and keeps them alike, if and only if it
      is not an upload to a bucket that runs through an object of one store only. */
  lemma CallInvisible(a: Config, b: Config, s: State, t: State, call: Call, s': State, t': State, x: Answer, y: Answer)
    requires CollisionFree(a.sha) && b == a.(dedup := false)
    requires Alike(a.sha, s, t) && Callable(s, call) && Callable(t, call)
    requires Serves(a, s, call, s', x) && Serves(b, t, call, t', y)
    ensures AnswersAgree(x, y) <==> !CallDiverges(a, s, t, call)
    ensures AnswersAgree(x, y) ==> Alike(a.sha, s', t')
  {
    hide Inv, SizesTrue, Blobs, UploadTarget, FreshId, Upload, Edit, DeleteBlob, PurgeExpired, OpenFile,
      CollisionFree, Diverges;
    match call
    case UploadCall(input, id, now) =>
      var p: Option<UUID> :| LatestWithHash(s.rows, a.sha(input.content), p)
        && Served(Upload(a, s, input, id, now, p), s', x);
      var q: Option<UUID> :| LatestWithHash(t.rows, b.sha(input.content), q)
        && Served(Upload(b, t, input, id, now, q), t', y);
      UploadInvisible(a, b, s, t, input, id, now, p, q);
    case EditCall(id, expiresAt, filename) => EditInvisible(a.sha, s, t, id, EditInput(expiresAt, None, filename));
    case DeleteCall(id) => DeleteInvisible(a.sha, s, t, id);
    case PurgeCall(now) =>
      var o: seq<UUID> :| PurgeServed(s, now, o, s', x);
      var q: seq<UUID> :| PurgeServed(t, now, q, t', y);
      PurgeInvisible(a.sha, s, t, now, o, q);
    case GetCall(id) =>
    case OpenCall(id) => SameBytes(a.sha, s, t, id);
  }

  lemma UploadInvisible(a: Config, b: Config, s: State, t: State, input: UploadInput, id: UUID, now: int,
      p: Option<UUID>, q: Option<UUID>)
    requires CollisionFree(a.sha) && b == a.(dedup := false) && Alike(a.sha, s, t)
    requires UploadTarget(input.bucket) && FreshId(s, id) && FreshId(t, id)
    requires LatestWithHash(s.rows, a.sha(input.content), p) && LatestWithHash(t.rows, b.sha(input.content), q)
    ensures var r, u := Upload(a, s, input, id, now, p), Upload(b, t, input, id, now, q);
      && (AnswersAgree(RowAnswer(r.result), RowAnswer(u.result)) <==> !Diverges(a, s, t, input.bucket))
      && (AnswersAgree(RowAnswer(r.result), RowAnswer(u.result)) ==> Alike(a.sha, r.state, u.state))
  {
    hide Inv, SizesTrue, Blobs, UploadTarget, FreshId, Upload, CollisionFree, ValidBucketName, ValidComponent,
      Blocked;
    StepKeepsInv(a, s, UploadAction(input, id, now, p));
    StepKeepsInv(b, t, UploadAction(input, id, now, q));
    UploadedRow(a, s, input, id, now, p);
    UploadedRow(b, t, input, id, now, q);
    UploadSizes(a, s, input, id, now, p);
    UploadSizes(b, t, input, id, now, q);
  }

  lemma EditInvisible(sha: Bytes -> string, s: State, t: State, id: UUID, input: EditInput)
    requires Alike(sha, s, t) && input.bucket.None?
    ensures var r, u := Edit(s, id, input), Edit(t, id, input);
      Alike(sha, r.state, u.state) && AnswersAgree(RowAnswer(r.result), RowAnswer(u.result))
  {
    hide Inv, SizesTrue, Blobs, Move, BucketKey;
    EditKeepsIff(sha, s, id, input);
    EditKeepsIff(sha, t, id, input);
    EditSizes(sha, s, id, input);
    EditSizes(sha, t, id, input);
    if id in s.rows {
      assert RowsAgree(s.rows[id], t.rows[id]);
    }
  }

  lemma DeleteInvisible(sha: Bytes -> string, s: State, t: State, id: UUID)
    requires Alike(sha, s, t)
    ensures var r, u := DeleteBlob(s, id), DeleteBlob(t, id); Alike(sha, r.state, u.state) && r.result == u.result
  {
    hide Inv, SizesTrue, Blobs, RemovePhysical;
    DeleteStep(sha, s, id);
    DeleteStep(sha, t, id);
    DeleteSizes(sha, s, id);
    DeleteSizes(sha, t, id);
    DeleteAnswers(sha, s, id);
    DeleteAnswers(sha, t, id);
  }

  lemma DeleteAnswers(sha: Bytes -> string, s: State, id: UUID)
    requires Inv(sha, s)
    ensures DeleteBlob(s, id).result == if id in s.rows then Ok(()) else Err(NotFound)
  {
    hide InvExcept, RemovePhysical;
    DeleteKeeps(sha, s, id, NOBODY);
  }

  lemma PurgeInvisible(sha: Bytes -> string, s: State, t: State, now: int, o: seq<UUID>, q: seq<UUID>)
    requires Alike(sha, s, t) && Lists(o, Expired(s.rows, now)) && Lists(q, Expired(t.rows, now))
    ensures var r, u := PurgeExpired(s, o), PurgeExpired(t, q); Alike(sha, r.state, u.state) && r.removed == u.removed
  {
    hide InvExcept, SizesTrue, Blobs, PurgeExpired;
    forall id ensures id in Expired(s.rows, now) <==> id in Expired(t.rows, now) {
      if id in s.rows {
        assert RowsAgree(s.rows[id], t.rows[id]);
      }
    }
    assert Expired(s.rows, now) == Expired(t.rows, now);
    PurgeLeaves(sha, s, now, o, NOBODY);
    PurgeLeaves(sha, t, now, q, NOBODY);
    PurgeSizes(sha, s, now, o);
    PurgeSizes(sha, t, now, q);
  }

  /** Two stores serving the same calls, with the answers each gave. */
  ghost predicate Twin(a: Config, b: Config, s: State, t: State, calls: seq<Call>, xs: seq<Answer>, ys: seq<Answer>,
      s': State, t': State)
    decreases |calls|
  {
    && |xs| == |calls| == |ys|
    && if calls == [] then s == s' && t == t'
       else exists s1: State, t1: State ::
         && Callable(s, calls[0]) && Callable(t, calls[0])
         && Serves(a, s, calls[0], s1, xs[0]) && Serves(b, t, calls[0], t1, ys[0])
         && Twin(a, b, s1, t1, calls[1..], xs[1..], ys[1..], s', t')
  }

  /** The same, and no upload goes to a bucket that runs through an object of one store only. */
  ghost predicate Together(a: Config, b: Config, s: State, t: State, calls: seq<Call>, xs: seq<Answer>,
      ys: seq<Answer>, s': State, t': State)
    decreases |calls|
  {
    && |xs| == |calls| == |ys|
    && if calls == [] then s == s' && t == t'
       else exists s1: State, t1: State ::
         && Callable(s, calls[0]) && Callable(t, calls[0]) && !CallDiverges(a, s, t, calls[0])
         && Serves(a, s, calls[0], s1, xs[0]) && Serves(b, t, calls[0], t1, ys[0])
         && Together(a, b, s1, t1, calls[1..], xs[1..], ys[1..], s', t')
  }

  ghost predicate AllAgree(xs: seq<Answer>, ys: seq<Answer>)
    requires |xs| == |ys|
  {
    forall k :: 0 <= k < |xs| ==> AnswersAgree(xs[k], ys[k])
  }

  lemma AllAgreeStep(xs: seq<Answer>, ys: seq<Answer>)
    requires |xs| == |ys| > 0
    ensures AllAgree(xs, ys) <==> AnswersAgree(xs[0], ys[0]) && AllAgree(xs[1..], ys[1..])
  {
    hide AnswersAgree;
    assert forall k :: 1 <= k < |xs| ==> xs[k] == xs[1..][k - 1] && ys[k] == ys[1..][k - 1];
    assert forall k :: 0 <= k < |xs| - 1 ==> xs[1..][k] == xs[k + 1] && ys[1..][k] == ys[k + 1];
  }

  /** Twins that never part answer alike and stay alike. */
  lemma {:induction false} TogetherAgree(a: Config, b: Config, s: State, t: State, calls: seq<Call>, xs: seq<Answer>,
      ys: seq<Answer>, s': State, t': State)
    requires CollisionFree(a.sha) && b == a.(dedup := false)
    requires Alike(a.sha, s, t) && Together(a, b, s, t, calls, xs, ys, s', t')
    ensures Alike(a.sha, s', t') && AllAgree(xs, ys)
    decreases |calls|
  {
    hide Alike, Serves, Callable, CollisionFree, AnswersAgree, CallDiverges;
    if calls != [] {
      var s1: State, t1: State :|
        && Callable(s, calls[0]) && Callable(t, calls[0]) && !CallDiverges(a, s, t, calls[0])
        && Serves(a, s, calls[0], s1, xs[0]) && Serves(b, t, calls[0], t1, ys[0])
        && Together(a, b, s1, t1, calls[1..], xs[1..], ys[1..], s', t');
      CallInvisible(a, b, s, t, calls[0], s1, t1, xs[0], ys[0]);
      TogetherAgree(a, b, s1, t1, calls[1..], xs[1..], ys[1..], s', t');
      AllAgreeStep(xs, ys);
    }
  }

  /** Twins that always answer alike never part. */
  lemma {:induction false} AgreeTogether(a: Config, b: Config, s: State, t: State, calls: seq<Call>, xs: seq<Answer>,
      ys: seq<Answer>, s': State, t': State)
    requires CollisionFree(a.sha) && b == a.(dedup := false)
    requires Alike(a.sha, s, t) && Twin(a, b, s, t, calls, xs, ys, s', t') && AllAgree(xs, ys)
    ensures Together(a, b, s, t, calls, xs, ys, s', t')
    decreases |calls|
  {
    hide Alike, Serves, Callable, CollisionFree, AnswersAgree, CallDiverges;
    if calls != [] {
      var s1: State, t1: State :|
        && Callable(s, calls[0]) && Callable(t, calls[0])
        && Serves(a, s, calls[0], s1, xs[0]) && Serves(b, t, calls[0], t1, ys[0])
        && Twin(a, b, s1, t1, calls[1..], xs[1..], ys[1..], s', t');
      AllAgreeStep(xs, ys);
      CallInvisible(a, b, s, t, calls[0], s1, t1, xs[0], ys[0]);
      AgreeTogether(a, b, s1, t1, calls[1..], xs[1..], ys[1..], s', t');
    }
  }

  /** From empty stores, under a collision-free hash, deduplication changes no answer of a run,
      neither rows, sizes and hashes nor streamed bytes, if and only if no upload of the run goes
      to a bucket that runs through an object of one store only. The files of all rows are then
      the same at the end. */
  lemma DeduplicationInvisible(cfg: Config, calls: seq<Call>, xs: seq<Answer>, ys: seq<Answer>, s: State, t: State)
    requires CollisionFree(cfg.sha)
    requires Twin(cfg.(dedup := true), cfg.(dedup := false), EMPTY, EMPTY, calls, xs, ys, s, t)
    ensures AllAgree(xs, ys) <==> Together(cfg.(dedup := true), cfg.(dedup := false), EMPTY, EMPTY, calls, xs, ys, s, t)
    ensures AllAgree(xs, ys) ==> s.rows.Keys == t.rows.Keys
    ensures AllAgree(xs, ys) ==>
      forall id: UUID :: AnswersAgree(FileAnswer(OpenFile(s, id)), FileAnswer(OpenFile(t, id)))
  {
    hide Inv, SizesTrue, Twin, Together, CollisionFree, OpenFile, AnswersAgree, Blobs, AllAgree;
    var a, b := cfg.(dedup := true), cfg.(dedup := false);
    EmptyInv(cfg.sha);
    EmptySizes();
    assert |xs| == |ys| by { TwinLengths(a, b, EMPTY, EMPTY, calls, xs, ys, s, t); }
    if AllAgree(xs, ys) {
      AgreeTogether(a, b, EMPTY, EMPTY, calls, xs, ys, s, t);
    }
    if Together(a, b, EMPTY, EMPTY, calls, xs, ys, s, t) {
      TogetherAgree(a, b, EMPTY, EMPTY, calls, xs, ys, s, t);
      forall id: UUID ensures AnswersAgree(FileAnswer(OpenFile(s, id)), FileAnswer(OpenFile(t, id))) {
        SameBytes(cfg.sha, s, t, id);
      }
    }
  }

  lemma TwinLengths(a: Config, b: Config, s: State, t: State, calls: seq<Call>, xs: seq<Answer>, ys: seq<Answer>,
      s': State, t': State)
    requires Twin(a, b, s, t, calls, xs, ys, s', t')
    ensures |xs| == |calls| == |ys|
  {
  }

  /** An upload to a bucket without a segment in the form of a UUID. */
  ghost predicate Ordinary(call: Call) {
    call.UploadCall? ==>
      forall i :: 0 <= i < |Segments(call.upload.bucket)| ==> !IsUuid(Segments(call.upload.bucket)[i])
  }

  /** As long as no bucket has a segment in the form of a UUID, the twins never part. */
  lemma {:induction false} OrdinaryTogether(a: Config, b: Config, s: State, t: State, calls: seq<Call>,
      xs: seq<Answer>, ys: seq<Answer>, s': State, t': State)
    requires CollisionFree(a.sha) && b == a.(dedup := false)
    requires Alike(a.sha, s, t) && Twin(a, b, s, t, calls, xs, ys, s', t')
    requires forall k :: 0 <= k < |calls| ==> Ordinary(calls[k])
    ensures Together(a, b, s, t, calls, xs, ys, s', t')
    decreases |calls|
  {
    hide Alike, Serves, Callable, CollisionFree, AnswersAgree, CallDiverges, Ordinary;
    if calls != [] {
      var s1: State, t1: State :|
        && Callable(s, calls[0]) && Callable(t, calls[0])
        && Serves(a, s, calls[0], s1, xs[0]) && Serves(b, t, calls[0], t1, ys[0])
        && Twin(a, b, s1, t1, calls[1..], xs[1..], ys[1..], s', t');
      OrdinaryCall(a, s, t, calls[0]);
      CallInvisible(a, b, s, t, calls[0], s1, t1, xs[0], ys[0]);
      OrdinaryTogether(a, b, s1, t1, calls[1..], xs[1..], ys[1..], s', t');
    }
  }

  lemma OrdinaryCall(cfg: Config, s: State, t: State, call: Call)
    requires Alike(cfg.sha, s, t) && Callable(s, call) && Ordinary(call)
    ensures !CallDiverges(cfg, s, t, call)
  {
    hide InvExcept, IsUuid, FreshId, PlainBucket, Blocked, SizesTrue, ValidBucketName, ValidComponent;
    if call.UploadCall? && ValidBucketName(call.upload.bucket) && ValidComponent(call.upload.bucket) {
      InvParts(cfg.sha, s, NOBODY);
      InvParts(cfg.sha, t, NOBODY);
      OrdinaryBucketOpen(s.tree, call.upload.bucket);
      OrdinaryBucketOpen(t.tree, call.upload.bucket);
    }
  }

  lemma EmptySizes()
    ensures SizesTrue(EMPTY.rows, Blobs(EMPTY.tree))
  {
  }
}
