/** Sequential runs of all service operations. */
module Runs {
  import opened Wrappers
  import opened Text
  import opened Paths
  import opened Trees
  import opened Store
  import opened BlobModel
  import opened MultipartModel
  import opened Shapes
  import opened Integrity
  import opened MultipartIntegrity
  import opened Expiry
  import References

  /** One call of a service operation, with what its environment chose: fresh ids, the
      clock, the row GetByHash picked and the order of query results. */
  datatype Action =
    | UploadAction(upload: UploadInput, id: UUID, now: int, pick: Option<UUID>)
    | EditAction(id: UUID, edit: EditInput)
    | DeleteAction(id: UUID)
    | PurgeAction(now: int, order: seq<UUID>)
    | OpenAction(id: UUID)
    | InitiateAction(initiate: InitiateInput, id: UUID, now: int)
    | ChunkAction(chunk: ChunkInput)
    | CompleteAction(complete: CompleteInput, now: int)
    | CleanupAction(cutoff: int, order: seq<UUID>)

  /** What the runs considered ask of a call: fresh ids, truthful queries, buckets outside the
      chunk namespace in which objects are found again, except where the bucket is rejected
      anyway, and no edit that carries a shared object away or moves a directory. */
  ghost predicate Legal(cfg: Config, s: State, a: Action) {
    match a
    case UploadAction(input, id, _, pick) =>
      UploadTarget(input.bucket) && FreshId(s, id) && LatestWithHash(s.rows, cfg.sha(input.content), pick)
    case EditAction(id, input) =>
      (AsksMove(input) ==> EditTarget(input.bucket.value)) && !EditBreaks(s, id, input)
    case PurgeAction(now, order) => Lists(order, Expired(s.rows, now))
    case InitiateAction(input, id, _) => PlainBucket(input.bucket) && FreshId(s, id)
    case CleanupAction(cutoff, order) => Lists(order, Stale(s.sessions, cutoff))
    case _ => true
  }

  ghost function Step(cfg: Config, s: State, a: Action): State
    requires Legal(cfg, s, a)
  {
    match a
    case UploadAction(input, id, now, pick) => Upload(cfg, s, input, id, now, pick).state
    case EditAction(id, input) => Edit(s, id, input).state
    case DeleteAction(id) => DeleteBlob(s, id).state
    case PurgeAction(_, order) => PurgeExpired(s, order).state
    case OpenAction(_) => s
    case InitiateAction(input, id, now) => Initiate(cfg, s, input, id, now).state
    case ChunkAction(input) => UploadChunk(cfg, s, input).state
    case CompleteAction(input, now) => Complete(cfg, s, input, now).state
    case CleanupAction(_, order) => CleanupAbandoned(Cleaned(s, 0), order).state
  }

  ghost predicate Run(cfg: Config, s: State, actions: seq<Action>, end: State)
    decreases |actions|
  {
    if actions == [] then s == end
    else Legal(cfg, s, actions[0]) && Run(cfg, Step(cfg, s, actions[0]), actions[1..], end)
  }

  const EMPTY: State := State(map[], map[], Tree({[]}, map[]))

  lemma EmptyInv(sha: Bytes -> string)
    ensures Inv(sha, EMPTY)
  {
  }

  lemma StepKeepsInv(cfg: Config, s: State, a: Action)
    requires Inv(cfg.sha, s) && Legal(cfg, s, a)
    ensures Inv(cfg.sha, Step(cfg, s, a))
  {
    hide Inv, UploadTarget, EditTarget, PlainBucket, EditBreaks, Upload, Edit, DeleteBlob, PurgeExpired, Initiate,
      UploadChunk, Complete, CleanupAbandoned, FreshId;
    match a
    case UploadAction(input, id, now, pick) => UploadStep(cfg, s, input, id, now, pick);
    case EditAction(id, input) => EditKeepsIff(cfg.sha, s, id, input);
    case DeleteAction(id) => DeleteStep(cfg.sha, s, id);
    case PurgeAction(now, order) => InvLoose(cfg.sha, s); PurgeLeaves(cfg.sha, s, now, order, NOBODY);
    case OpenAction(_) =>
    case InitiateAction(input, id, now) => InitiateKeeps(cfg, s, input, id, now);
    case ChunkAction(input) => UploadChunkKeeps(cfg, s, input);
    case CompleteAction(input, now) => CompleteKeeps(cfg, s, input, now);
    case CleanupAction(_, order) => CleanupKeeps(cfg.sha, s, order);
  }

  lemma InvLoose(sha: Bytes -> string, s: State)
    ensures Inv(sha, s) <==> InvExcept(sha, s, NOBODY)
  {
    hide InvExcept;
  }

  lemma UploadStep(cfg: Config, s: State, input: UploadInput, id: UUID, now: int, pick: Option<UUID>)
    requires Inv(cfg.sha, s) && UploadTarget(input.bucket) && FreshId(s, id)
    requires LatestWithHash(s.rows, cfg.sha(input.content), pick)
    ensures Inv(cfg.sha, Upload(cfg, s, input, id, now, pick).state)
  {
    hide InvExcept, UploadTarget, FreshId, Upload, Accepted;
    UploadKeepsIff(cfg, s, input, id, now, pick, NOBODY);
  }

  lemma DeleteStep(sha: Bytes -> string, s: State, id: UUID)
    requires Inv(sha, s)
    ensures Inv(sha, DeleteBlob(s, id).state)
  {
    hide InvExcept, DeleteBlob;
    DeleteKeeps(sha, s, id, NOBODY);
    assert NOBODY - {id} == NOBODY;
  }

  lemma {:induction false} RunKeepsInv(cfg: Config, s: State, actions: seq<Action>, end: State)
    requires Inv(cfg.sha, s) && Run(cfg, s, actions, end)
    ensures Inv(cfg.sha, end)
    decreases |actions|
  {
    hide Inv, Legal, Step;
    if actions != [] {
      StepKeepsInv(cfg, s, actions[0]);
      RunKeepsInv(cfg, Step(cfg, s, actions[0]), actions[1..], end);
    }
  }

  /** What OpenFile streams for a row of a store in order. */
  lemma OpenRow(sha: Bytes -> string, s: State, id: UUID)
    requires Inv(sha, s) && id in s.rows
    ensures var home := Home(s.rows[id]);
      && home in Blobs(s.tree) && sha(Blobs(s.tree)[home]) == s.rows[id].hash
      && OpenFile(s, id) == Ok((s.rows[id], Blobs(s.tree)[home], |Blobs(s.tree)[home]|))
  {
    hide RowCanonical, Shaped, Home, Blobs, LocatePath, OpenFile, SessionsOk, Free, LooseFree;
    HomesFree(sha, s, NOBODY, id);
    LocateHome(s.rows[id]);
    RefHome(s.rows, id);
    OpenStored(s, id);
  }

  lemma OpenStored(s: State, id: UUID)
    requires id in s.rows && LocatePath(s.rows[id].path) == Some(Home(s.rows[id])) && Home(s.rows[id]) in Blobs(s.tree)
    ensures var content := Blobs(s.tree)[Home(s.rows[id])]; OpenFile(s, id) == Ok((s.rows[id], content, |content|))
  {
    hide Locate, BucketKey, Home;
  }

  /** Over every sequential run that starts from an empty store, every row opens and streams
      bytes that hash to the row's hash, and every object outside the temporary namespace is
      the object of some row. */
  lemma IntegrityOverRuns(cfg: Config, actions: seq<Action>, end: State)
    requires Run(cfg, EMPTY, actions, end)
    ensures forall id :: id in end.rows ==>
      OpenFile(end, id).Ok? && cfg.sha(OpenFile(end, id).value.1) == end.rows[id].hash
    ensures forall f :: f in end.tree.files && !IsTemp(f) ==>
      exists id :: id in end.rows && LocatePath(end.rows[id].path) == Some(f)
  {
    hide Run, Shaped, RowsCanonical, SessionsOk, OpenFile, LocatePath, Home;
    EmptyInv(cfg.sha);
    RunKeepsInv(cfg, EMPTY, actions, end);
    forall id | id in end.rows
      ensures OpenFile(end, id).Ok? && cfg.sha(OpenFile(end, id).value.1) == end.rows[id].hash
    {
      OpenRow(cfg.sha, end, id);
    }
    forall f | f in end.tree.files && !IsTemp(f)
      ensures exists id :: id in end.rows && LocatePath(end.rows[id].path) == Some(f)
    {
      assert f in Blobs(end.tree);
      assert References.Referenced(Refs(end.rows), f);
      var id: UUID :| id in Refs(end.rows) && Refs(end.rows)[id].home == f;
      RowsLocate(end.rows, id);
    }
  }

  lemma RowsLocate(rows: Rows, id: UUID)
    requires RowsCanonical(rows) && id in rows
    ensures LocatePath(rows[id].path) == Some(Home(rows[id]))
  {
    hide RowCanonical, LocatePath, Home;
    LocateHome(rows[id]);
  }

  /** Every row but the one in doubt keeps an object, at every state of a run. */
  ghost predicate IntactExcept(cfg: Config, s: State, doubtful: UUID, actions: seq<Action>)
    decreases |actions|
  {
    && InvExcept(cfg.sha, s, {doubtful})
    && (actions != [] && Legal(cfg, s, actions[0]) ==>
          IntactExcept(cfg, Step(cfg, s, actions[0]), doubtful, actions[1..]))
  }

  /** Every upload of a run leaves the doubtful row's place alone. */
  ghost predicate AllSpare(cfg: Config, s: State, doubtful: UUID, actions: seq<Action>)
    requires forall k :: 0 <= k < |actions| ==> actions[k].UploadAction?
    decreases |actions|
  {
    actions != [] && Legal(cfg, s, actions[0]) && doubtful in s.rows ==>
      && Spares(cfg, s, doubtful, actions[0].upload.bucket, actions[0].pick)
      && AllSpare(cfg, Step(cfg, s, actions[0]), doubtful, actions[1..])
  }

  /** Any run of uploads between a crash and the rerun: every row but the one in doubt has its
      object at every state, new rows included, if and only if every upload leaves that row's
      place alone. The rerun then restores the full invariant. */
  lemma {:induction false} UploadsThenRerun(cfg: Config, s: State, doubtful: UUID, actions: seq<Action>, end: State)
    requires InvExcept(cfg.sha, s, {doubtful}) && doubtful in s.rows
    requires Run(cfg, s, actions, end) && forall k :: 0 <= k < |actions| ==> actions[k].UploadAction?
    ensures IntactExcept(cfg, s, doubtful, actions) <==> AllSpare(cfg, s, doubtful, actions)
    ensures AllSpare(cfg, s, doubtful, actions) ==>
      && doubtful in end.rows && InvExcept(cfg.sha, end, {doubtful})
      && (forall id :: id in end.rows && id != doubtful ==> Home(end.rows[id]) in Blobs(end.tree))
      && Inv(cfg.sha, DeleteBlob(end, doubtful).state)
    decreases |actions|
  {
    hide InvExcept, UploadTarget, Upload, DeleteBlob, Home, Blobs, FreshId, Spares, Accepted;
    if actions == [] {
      DeleteKeeps(cfg.sha, s, doubtful, {doubtful});
      assert {doubtful} - {doubtful} == NOBODY;
      forall id | id in s.rows && id != doubtful ensures Home(s.rows[id]) in Blobs(s.tree) {
        TightRow(cfg.sha, s, {doubtful}, id);
      }
    } else {
      var a := actions[0];
      UploadThenRerun(cfg, s, doubtful, a.upload, a.id, a.now, a.pick);
      FreshUnused(s, a.id);
      UploadKeepsRow(cfg, s, a.upload, a.id, a.now, a.pick, doubtful);
      if Spares(cfg, s, doubtful, a.upload.bucket, a.pick) {
        UploadsThenRerun(cfg, Step(cfg, s, a), doubtful, actions[1..], end);
      }
    }
  }

  /** With the EnsureBucket of the driver's source, no upload and no session is ever granted,
      whatever the bucket; a refused Initiate still leaves its session row behind. */
  lemma AsWrittenRefusesAll(cfg: Config, s: State, input: UploadInput, id: UUID, now: int, pick: Option<UUID>,
      init: InitiateInput)
    requires cfg.ensure == AsWritten && (pick.Some? ==> pick.value in s.rows)
    ensures Upload(cfg, s, input, id, now, pick).result.Err? && Upload(cfg, s, input, id, now, pick).state == s
    ensures Initiate(cfg, s, init, id, now).result.Err?
    ensures id in Initiate(cfg, s, init, id, now).state.sessions
  {
    EnsureBucketAlwaysFails(s.tree, input.bucket);
    EnsureBucketAlwaysFails(s.tree, CHUNK_BUCKET);
  }
}
