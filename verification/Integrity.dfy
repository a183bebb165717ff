/** The invariant of the store: rows, objects and open sessions are in step. */
module Integrity {
  import opened Wrappers
  import opened Text
  import opened Paths
  import opened Trees
  import opened Store
  import opened BlobModel
  import opened Shapes
  import References

  /** The object a row points at. */
  function Home(row: Blob): Path {
    Segments(row.path)
  }

  function Refs(rows: Rows): References.Refs {
    map id | id in rows :: References.Ref(Home(rows[id]), rows[id].hash)
  }

  ghost predicate RowCanonical(row: Blob) {
    && row.path != "" && LocatePath(row.path) == Some(Home(row))
    && ObjectShape(Home(row)) && !IsTemp(Home(row)) && PlainBucket(row.bucket)
  }

  /** A row whose object bears its id holds that object in its own bucket. */
  predicate NamedOwn(id: UUID, row: Blob) {
    Home(row) != [] && Last(Home(row)) == id ==> row.path == row.bucket + "/" + id
  }

  /** Rows that point at the same place have the same path, so that counting the rows with a
      path counts the references to its object. */
  ghost predicate OnePath(rows: Rows) {
    forall x, y :: x in rows && y in rows && Home(rows[x]) == Home(rows[y]) ==> rows[x].path == rows[y].path
  }

  ghost predicate RowsCanonical(rows: Rows) {
    && (forall id :: id in rows ==> RowCanonical(rows[id]) && NamedOwn(id, rows[id]))
    && OnePath(rows)
  }

  /** The service finds a row's object where the row's path says, unless something else is there. */
  lemma RowLocation(t: Tree, row: Blob)
    requires RowCanonical(row) && Shaped(t) && Free(t, Home(row))
    ensures LocatePath(row.path) == Some(Home(row))
    ensures ExistsAt(t, row.path) <==> Home(row) in Blobs(t)
    ensures DeleteAt(t, row.path) == Remove(t, Home(row))
    ensures row.path != ""
  {
    hide Locate, ObjectShape, PlainBucket, Segments;
  }

  /** A session that is still open has left no trace among rows and blobs. */
  ghost predicate SessionsOk(sessions: Sessions, rows: Rows, blobs: map<Path, Bytes>) {
    forall id :: id in sessions ==>
      && PlainBucket(sessions[id].bucket)
      && (!sessions[id].completed ==> References.Unused(Refs(rows), blobs, id))
  }

  /** Where a row may lack its object, nothing else has taken its place. */
  ghost predicate LooseFree(rows: Rows, t: Tree, loose: set<string>) {
    forall id :: id in rows && id in loose ==> Free(t, Home(rows[id]))
  }

  /** The invariant of the store, except that the rows in `loose` may lack their object:
      every row's object is stored and hashes to the row's hash, every object outside the
      temporary namespace is referenced by a row, and open sessions are not rows yet. */
  ghost predicate InvExcept(sha: Bytes -> string, s: State, loose: set<string>) {
    && Shaped(s.tree)
    && RowsCanonical(s.rows)
    && References.InStep(sha, Refs(s.rows), Blobs(s.tree), loose)
    && SessionsOk(s.sessions, s.rows, Blobs(s.tree))
    && LooseFree(s.rows, s.tree, loose)
  }

  ghost predicate Inv(sha: Bytes -> string, s: State) {
    InvExcept(sha, s, {})
  }

  /** A UUID that has never been used: no row or session bears it, and no path holds it as a
      segment. */
  ghost predicate FreshId(s: State, id: UUID) {
    && id !in s.sessions && id !in s.rows
    && (forall f :: f in s.tree.files ==> id !in f)
    && (forall d :: d in s.tree.dirs ==> id !in d)
    && (forall x :: x in s.rows ==> id !in Home(s.rows[x]))
  }

  lemma FreshUnused(s: State, id: UUID)
    requires FreshId(s, id)
    ensures References.Unused(Refs(s.rows), Blobs(s.tree), id) && id !in s.sessions && id !in s.rows
  {
    hide Home;
  }

  /** Every row's place is free of anything but its object. */
  lemma HomesFree(sha: Bytes -> string, s: State, loose: set<string>, id: UUID)
    requires InvExcept(sha, s, loose) && id in s.rows
    ensures Free(s.tree, Home(s.rows[id])) && RowCanonical(s.rows[id])
  {
    hide Home, RowCanonical, SessionsOk, Free;
    if id !in loose {
      assert Refs(s.rows)[id].home == Home(s.rows[id]);
      StoredFree(s.tree, Home(s.rows[id]));
    }
  }

  /** A place stays free when objects and directories only go. */
  lemma FreeShrinks(t: Tree, u: Tree, p: Path)
    requires Free(t, p) && u.dirs <= t.dirs && u.files.Keys <= t.files.Keys
    ensures Free(u, p)
  {
    assert forall f :: f in u.files ==> f in t.files;
  }

  lemma AnotherSharer(rows: Rows, path: string, id: UUID) returns (other: UUID)
    requires id in Sharers(rows, path) && |Sharers(rows, path)| > 1
    ensures other in rows && other != id && rows[other].path == path
  {
    var others := Sharers(rows, path) - {id};
    assert |others| == |Sharers(rows, path)| - 1;
    other :| other in others;
  }

  lemma OnlySharer(rows: Rows, path: string, id: UUID, x: UUID)
    requires id in Sharers(rows, path) && x in Sharers(rows, path) && |Sharers(rows, path)| <= 1
    ensures x == id
  {
    var others := Sharers(rows, path) - {id};
    assert |others| == |Sharers(rows, path)| - 1;
    assert x !in others;
  }

  // ---------- each operation keeps the invariant ----------

  lemma RefsUpdate(rows: Rows, id: UUID, row: Blob)
    ensures Refs(rows[id := row]) == Refs(rows)[id := References.Ref(Home(row), row.hash)]
  {
  }

  lemma RefsRemove(rows: Rows, id: UUID)
    ensures Refs(rows - {id}) == Refs(rows) - {id}
  {
  }

  lemma CanonicalUpdate(rows: Rows, id: UUID, row: Blob)
    requires RowsCanonical(rows) && RowCanonical(row) && NamedOwn(id, row)
    requires forall x :: x in rows && x != id && Home(rows[x]) == Home(row) ==> rows[x].path == row.path
    ensures RowsCanonical(rows[id := row])
  {
    hide RowCanonical, Home;
  }

  lemma CanonicalRemove(rows: Rows, id: UUID)
    requires RowsCanonical(rows)
    ensures RowsCanonical(rows - {id})
  {
    hide RowCanonical, Home;
  }

  lemma SessionsAfterOwn(sessions: Sessions, rows: Rows, blobs: map<Path, Bytes>, id: UUID, row: Blob, content: Bytes)
    requires SessionsOk(sessions, rows, blobs) && (id in sessions ==> sessions[id].completed)
    requires Home(row) != [] && Last(Home(row)) == id
    ensures SessionsOk(sessions, rows[id := row], blobs[Home(row) := content])
  {
    RefsUpdate(rows, id, row);
    forall x | x in sessions && !sessions[x].completed
      ensures References.Unused(Refs(rows[id := row]), blobs[Home(row) := content], x)
    {
      References.UnusedAfterOwn(Refs(rows), blobs, id, References.Ref(Home(row), row.hash), content, x);
    }
  }

  lemma SessionsAfterShared(sessions: Sessions, rows: Rows, blobs: map<Path, Bytes>, id: UUID, row: Blob, other: UUID)
    requires SessionsOk(sessions, rows, blobs) && id !in sessions
    requires other in rows && row.path == rows[other].path && row.hash == rows[other].hash
    ensures SessionsOk(sessions, rows[id := row], blobs)
  {
    RefsUpdate(rows, id, row);
    forall x | x in sessions && !sessions[x].completed
      ensures References.Unused(Refs(rows[id := row]), blobs, x)
    {
      References.UnusedAfterShared(Refs(rows), blobs, id, other, x);
    }
  }

  lemma SessionsAfterDrop(sessions: Sessions, rows: Rows, blobs: map<Path, Bytes>, id: UUID, blobs': map<Path, Bytes>)
    requires SessionsOk(sessions, rows, blobs) && blobs'.Keys <= blobs.Keys
    ensures SessionsOk(sessions, rows - {id}, blobs')
  {
    RefsRemove(rows, id);
    forall x | x in sessions && !sessions[x].completed ensures References.Unused(Refs(rows - {id}), blobs', x) {
      References.UnusedAfterDrop(Refs(rows), blobs, id, blobs', x);
    }
  }

  /** A new row with its own new object; sessions open before stay open. */
  lemma AddOwnRow(sha: Bytes -> string, s: State, s': State, id: UUID, row: Blob, content: Bytes, loose: set<string>)
    requires InvExcept(sha, s, loose) && References.Unused(Refs(s.rows), Blobs(s.tree), id)
    requires RowCanonical(row) && Last(Home(row)) == id && row.hash == sha(content)
    requires SessionsOk(s'.sessions, s.rows, Blobs(s.tree)) && (id in s'.sessions ==> s'.sessions[id].completed)
    requires s'.rows == s.rows[id := row] && row.path == row.bucket + "/" + id
    requires Shaped(s'.tree) && Blobs(s'.tree) == Blobs(s.tree)[Home(row) := content]
    requires LooseFree(s'.rows, s'.tree, loose)
    ensures InvExcept(sha, s', loose)
  {
    hide Shaped, Blobs, Home, RowCanonical, RowsCanonical, SessionsOk, LooseFree, Refs, References.InStep,
      References.Unused;
    RowShape(row);
    NewHome(s.rows, Blobs(s.tree), id, Home(row));
    RefsUpdate(s.rows, id, row);
    References.AddOwn(sha, Refs(s.rows), Blobs(s.tree), loose, id, Home(row), content);
    CanonicalUpdate(s.rows, id, row);
    SessionsAfterOwn(s'.sessions, s.rows, Blobs(s.tree), id, row, content);
  }

  /** The place of an object named after an unused id is no row's place. */
  lemma NewHome(rows: Rows, blobs: map<Path, Bytes>, id: UUID, home: Path)
    requires References.Unused(Refs(rows), blobs, id) && home != [] && Last(home) == id
    ensures forall x :: x in rows ==> Home(rows[x]) != home
  {
    hide Home;
    forall x | x in rows ensures Home(rows[x]) != home {
      RefHome(rows, x);
    }
  }

  /** Rows at another row's place have that row's path. */
  lemma SharedHome(rows: Rows, row: Blob, other: UUID)
    requires RowsCanonical(rows) && other in rows && row.path == rows[other].path
    ensures forall x :: x in rows && Home(rows[x]) == Home(row) ==> rows[x].path == row.path
  {
    hide Home, RowCanonical;
    SamePathHome(row, rows[other]);
  }

  lemma SharedShape(rows: Rows, id: UUID, row: Blob, other: UUID)
    requires RowsCanonical(rows) && other in rows && row.path == rows[other].path && PlainBucket(row.bucket)
    requires Home(row) == [] || Last(Home(row)) != id
    ensures RowCanonical(row) && NamedOwn(id, row)
  {
    hide Home, PlainBucket, ObjectShape, LocatePath;
    SamePathHome(row, rows[other]);
    assert RowCanonical(rows[other]);
  }

  /** A new row that shares another row's object. */
  lemma AddSharedRow(sha: Bytes -> string, s: State, s': State, id: UUID, row: Blob, other: UUID, loose: set<string>)
    requires InvExcept(sha, s, loose) && FreshId(s, id)
    requires other in s.rows && Home(s.rows[other]) in Blobs(s.tree)
    requires row.path == s.rows[other].path && row.hash == s.rows[other].hash && PlainBucket(row.bucket)
    requires s'.rows == s.rows[id := row] && s'.sessions == s.sessions
    requires Shaped(s'.tree) && Blobs(s'.tree) == Blobs(s.tree) && LooseFree(s'.rows, s'.tree, loose)
    ensures InvExcept(sha, s', loose)
  {
    hide Shaped, Blobs, Home, RowCanonical, RowsCanonical, SessionsOk, LooseFree, Refs, References.InStep,
      PlainBucket;
    RefsUpdate(s.rows, id, row);
    FreshUnused(s, id);
    SamePathHome(row, s.rows[other]);
    RefHome(s.rows, other);
    SharedHome(s.rows, row, other);
    SharedShape(s.rows, id, row, other);
    References.AddShared(sha, Refs(s.rows), Blobs(s.tree), loose, id, other);
    CanonicalUpdate(s.rows, id, row);
    SessionsAfterShared(s.sessions, s.rows, Blobs(s.tree), id, row, other);
  }

  /** Objects outside the temporary namespace, rows and sessions unchanged. */
  lemma SameBlobs(sha: Bytes -> string, s: State, t: Tree, loose: set<string>)
    requires InvExcept(sha, s, loose) && Shaped(t) && Blobs(t) == Blobs(s.tree) && LooseFree(s.rows, t, loose)
    ensures InvExcept(sha, s.(tree := t), loose)
  {
  }

  /** A bucket the service takes an upload for. */
  predicate Accepted(cfg: Config, s: State, bucket: string) {
    ValidBucketName(bucket) && cfg.ensure == AsPromised && ValidComponent(bucket) && !Blocked(s.tree, bucket)
  }

  /** A bucket an upload may name: any that the service or the driver rejects, and otherwise one
      outside the chunk namespace in which objects are found again. */
  ghost predicate UploadTarget(bucket: string) {
    ValidBucketName(bucket) && ValidComponent(bucket) ==> PlainBucket(bucket)
  }

  /** Deduplication finds something at the picked row's place: its object, or a directory that
      the bucket itself made there. */
  predicate Reuses(cfg: Config, s: State, bucket: string, pick: Option<UUID>) {
    && cfg.dedup && pick.Some? && pick.value in s.rows
    && (Home(s.rows[pick.value]) in Blobs(s.tree) || Home(s.rows[pick.value]) <= Segments(bucket))
  }

  /** An upload that is not accepted changes nothing. */
  lemma UploadRefused(cfg: Config, s: State, input: UploadInput, id: UUID, now: int, pick: Option<UUID>)
    requires pick.Some? ==> pick.value in s.rows
    requires Shaped(s.tree) && UploadTarget(input.bucket) && !Accepted(cfg, s, input.bucket)
    ensures var r := Upload(cfg, s, input, id, now, pick);
      r.state == s && r.result == Err(if ValidBucketName(input.bucket) then BucketFailed else InvalidBucket)
  {
    hide ValidBucketName, ValidComponent, PlainBucket, Shaped, Blocked, EnsureBucket;
    if ValidBucketName(input.bucket) {
      if ValidComponent(input.bucket) {
        EnsureShaped(cfg.ensure, s.tree, input.bucket);
      } else {
        EnsureRejects(cfg.ensure, s.tree, input.bucket);
      }
    }
  }

  lemma EnsureRejects(mode: BucketCreation, t: Tree, bucket: string)
    requires !ValidComponent(bucket)
    ensures EnsureBucket(mode, t, bucket).error.Some? && EnsureBucket(mode, t, bucket).tree == t
  {
    hide ValidComponent;
    EnsureBucketAlwaysFails(t, bucket);
  }

  /** Creating the bucket first makes no difference to storing the object. */
  lemma EnsureThenPut(cfg: Config, s: State, input: UploadInput, id: UUID)
    requires Shaped(s.tree) && PlainBucket(input.bucket) && Accepted(cfg, s, input.bucket)
    requires forall d :: d in s.tree.dirs ==> id !in d
    ensures var ensured, own := EnsureBucket(cfg.ensure, s.tree, input.bucket), BlobObject(input.bucket, id);
      && ensured.error.None? && Free(s.tree, own)
      && Put(ensured.tree, input.bucket, id, input.content) == Write(s.tree, own, input.content)
      && Write(s.tree, own, input.content).error.None?
  {
    hide ValidBucketName, PlainBucket, Locate, ObjectShape, DirShape, EnsureBucket, Blocked;
    EnsureShaped(cfg.ensure, s.tree, input.bucket);
    BlobObjectShape(input.bucket, id);
    WayToObject(s.tree, input.bucket, id);
    var ensured, own := EnsureBucket(cfg.ensure, s.tree, input.bucket).tree, BlobObject(input.bucket, id);
    assert id in own;
    assert own !in ensured.dirs;
    assert ensured.dirs + Ancestors(own) == s.tree.dirs + Ancestors(own);
  }

  /** What an accepted upload does: store a copy, and when deduplication finds something at the
      place of the row with the same hash, withdraw the copy and point there. */
  lemma UploadOutcome(cfg: Config, s: State, input: UploadInput, id: UUID, now: int, pick: Option<UUID>)
    requires Shaped(s.tree) && RowsCanonical(s.rows) && FreshId(s, id)
    requires PlainBucket(input.bucket) && Accepted(cfg, s, input.bucket)
    requires pick.Some? ==> pick.value in s.rows && Free(s.tree, Home(s.rows[pick.value]))
    ensures var r, own := Upload(cfg, s, input, id, now, pick), BlobObject(input.bucket, id);
      var reuse := Reuses(cfg, s, input.bucket, pick);
      && Shaped(r.state.tree) && own !in Blobs(s.tree)
      && Blobs(r.state.tree) == (if reuse then Blobs(s.tree) else Blobs(s.tree)[own := input.content])
      && Temps(r.state.tree) == Temps(s.tree)
      && r.result == Ok(NewRow(cfg, input, id, now, if reuse then Some(s.rows[pick.value]) else None))
      && r.state.rows == s.rows[id := r.result.value] && r.state.sessions == s.sessions
      && (if reuse then r.state.tree.dirs <= s.tree.dirs else r.state.tree.dirs == s.tree.dirs + Ancestors(own))
  {
    hide Locate, LocatePath, PlainBucket, Home, ObjectShape, DirShape, IsUuid, ValidBucketName, Shaped, Write, Remove,
      EnsureBucket, BlobObject, Put, Blocked, Free;
    BlobObjectShape(input.bucket, id);
    EnsureThenPut(cfg, s, input, id);
    var own := BlobObject(input.bucket, id);
    FreshOwn(s, input.bucket, id);
    WriteShaped(s.tree, own, input.content);
    var put := Write(s.tree, own, input.content).tree;
    ShapedValid(s.tree);
    ShapedValid(put);
    StoredFree(put, own);
    RemoveShaped(put, own);
    PutThenDeleteTree(s.tree, own, input.content);
    PutThenRemove(Blobs(s.tree), own, input.content);
    if pick.Some? {
      PickExists(s, put, input.bucket, id, pick.value);
    }
  }

  lemma FreshOwn(s: State, bucket: string, id: UUID)
    requires FreshId(s, id)
    ensures BlobObject(bucket, id) !in s.tree.files && BlobObject(bucket, id) !in Blobs(s.tree)
  {
    assert id in BlobObject(bucket, id);
  }

  /** After the copy is stored, what Exists finds at a row's place. */
  lemma PickExists(s: State, put: Tree, bucket: string, id: UUID, x: UUID)
    requires x in s.rows && RowCanonical(s.rows[x]) && Free(s.tree, Home(s.rows[x])) && FreshId(s, id)
    requires put.files.Keys == s.tree.files.Keys + {BlobObject(bucket, id)}
    requires put.dirs == s.tree.dirs + Ancestors(BlobObject(bucket, id))
    ensures ExistsAt(put, s.rows[x].path) <==> Home(s.rows[x]) in Blobs(s.tree) || Home(s.rows[x]) <= Segments(bucket)
  {
    hide PlainBucket, ObjectShape, IsUuid, Home, Locate;
    LocateHome(s.rows[x]);
    WayToObject(s.tree, bucket, id);
    assert id in BlobObject(bucket, id);
    assert Home(s.rows[x]) != BlobObject(bucket, id);
  }

  lemma LocateHome(row: Blob)
    requires RowCanonical(row)
    ensures LocatePath(row.path) == Some(Home(row)) && !IsTemp(Home(row))
  {
    hide PlainBucket, ObjectShape, LocatePath, Home;
  }

  lemma NewRowShape(cfg: Config, input: UploadInput, id: UUID, now: int)
    requires PlainBucket(input.bucket)
    ensures var row := NewRow(cfg, input, id, now, None);
      && RowCanonical(row) && Home(row) == BlobObject(input.bucket, id) && Last(Home(row)) == id
      && row.hash == cfg.sha(input.content)
  {
    BlobObjectShape(input.bucket, id);
  }

  /** The bucket runs through the place of a row that lacks its object. */
  ghost predicate RunsThrough(s: State, bucket: string, loose: set<string>) {
    exists x :: x in s.rows && x in loose && Home(s.rows[x]) <= Segments(bucket)
  }

  /** Upload keeps the invariant, whatever rows are loose, if and only if it does not leave a
      directory, or attach a row, where a loose row lacks its object: it is not accepted, its
      bucket does not run through such a place, or it reuses an object that is stored. */
  lemma UploadKeepsIff(cfg: Config, s: State, input: UploadInput, id: UUID, now: int, pick: Option<UUID>,
      loose: set<string>)
    requires InvExcept(cfg.sha, s, loose) && id !in loose
    requires UploadTarget(input.bucket) && FreshId(s, id)
    requires LatestWithHash(s.rows, cfg.sha(input.content), pick)
    ensures InvExcept(cfg.sha, Upload(cfg, s, input, id, now, pick).state, loose) <==>
      || !Accepted(cfg, s, input.bucket)
      || !RunsThrough(s, input.bucket, loose)
      || (cfg.dedup && pick.Some? && Home(s.rows[pick.value]) in Blobs(s.tree))
  {
    hide InvExcept, PlainBucket, UploadTarget, FreshId, Accepted, RunsThrough, Home, Blobs, Upload, Refs;
    InvParts(cfg.sha, s, loose);
    if !Accepted(cfg, s, input.bucket) {
      UploadRefused(cfg, s, input, id, now, pick);
    } else {
      AcceptedPlain(cfg, s, input.bucket);
      if pick.Some? {
        HomesFree(cfg.sha, s, loose, pick.value);
      }
      if cfg.dedup && pick.Some? && Home(s.rows[pick.value]) in Blobs(s.tree) {
        UploadSharesKeeps(cfg, s, input, id, now, pick, loose);
      } else if RunsThrough(s, input.bucket, loose) {
        UploadThroughBreaks(cfg, s, input, id, now, pick, loose);
      } else {
        UploadOwnKeeps(cfg, s, input, id, now, pick, loose);
      }
    }
  }

  lemma AcceptedPlain(cfg: Config, s: State, bucket: string)
    requires UploadTarget(bucket) && Accepted(cfg, s, bucket)
    ensures PlainBucket(bucket)
  {
    hide PlainBucket, ValidBucketName, ValidComponent;
  }

  lemma InvParts(sha: Bytes -> string, s: State, loose: set<string>)
    requires InvExcept(sha, s, loose)
    ensures Shaped(s.tree) && Valid(s.tree) && RowsCanonical(s.rows)
  {
    hide Valid, RowsCanonical, SessionsOk, LooseFree, References.InStep, Refs, Blobs;
  }

  /** In a store in order, deduplication reuses whatever row has the same hash. */
  lemma UploadInOrder(cfg: Config, s: State, input: UploadInput, id: UUID, now: int, pick: Option<UUID>)
    requires Inv(cfg.sha, s) && UploadTarget(input.bucket) && FreshId(s, id) && Accepted(cfg, s, input.bucket)
    requires LatestWithHash(s.rows, cfg.sha(input.content), pick)
    ensures var r, own := Upload(cfg, s, input, id, now, pick), BlobObject(input.bucket, id);
      var reuse := cfg.dedup && pick.Some?;
      && Shaped(r.state.tree) && own !in Blobs(s.tree)
      && Blobs(r.state.tree) == (if reuse then Blobs(s.tree) else Blobs(s.tree)[own := input.content])
      && Temps(r.state.tree) == Temps(s.tree)
      && r.result == Ok(NewRow(cfg, input, id, now, if reuse then Some(s.rows[pick.value]) else None))
      && r.state.rows == s.rows[id := r.result.value] && r.state.sessions == s.sessions
      && (pick.Some? ==> Home(s.rows[pick.value]) in Blobs(s.tree))
      && (if reuse then r.state.tree.dirs <= s.tree.dirs else r.state.tree.dirs == s.tree.dirs + Ancestors(own))
  {
    hide InvExcept, PlainBucket, UploadTarget, FreshId, Accepted, Home, Blobs, Temps, Upload, Refs, BlobObject,
      NewRow;
    InvParts(cfg.sha, s, {});
    AcceptedPlain(cfg, s, input.bucket);
    if pick.Some? {
      HomesFree(cfg.sha, s, {}, pick.value);
      TightRow(cfg.sha, s, {}, pick.value);
    }
    UploadOutcome(cfg, s, input, id, now, pick);
  }

  /** A row that is not loose has its object. */
  lemma TightRow(sha: Bytes -> string, s: State, loose: set<string>, id: UUID)
    requires InvExcept(sha, s, loose) && id in s.rows && id !in loose
    ensures Home(s.rows[id]) in Blobs(s.tree)
  {
    hide Shaped, RowsCanonical, SessionsOk, Home, Blobs, LooseFree;
    RefHome(s.rows, id);
  }

  /** Deduplication found the object stored. */
  lemma UploadSharesKeeps(cfg: Config, s: State, input: UploadInput, id: UUID, now: int, pick: Option<UUID>,
      loose: set<string>)
    requires InvExcept(cfg.sha, s, loose) && id !in loose
    requires PlainBucket(input.bucket) && Accepted(cfg, s, input.bucket) && FreshId(s, id)
    requires LatestWithHash(s.rows, cfg.sha(input.content), pick)
    requires pick.Some? && Free(s.tree, Home(s.rows[pick.value]))
    requires cfg.dedup && Home(s.rows[pick.value]) in Blobs(s.tree)
    ensures InvExcept(cfg.sha, Upload(cfg, s, input, id, now, pick).state, loose)
  {
    hide Upload, Shaped, Temps, Home, PlainBucket, RowsCanonical, RowCanonical, SessionsOk, Accepted, BlobObject,
      References.InStep, Refs, FreshId, Free;
    UploadOutcome(cfg, s, input, id, now, pick);
    var r := Upload(cfg, s, input, id, now, pick);
    forall x | x in r.state.rows && x in loose ensures Free(r.state.tree, Home(r.state.rows[x])) {
      FilesFromParts(s.tree, r.state.tree);
      FreeShrinks(s.tree, r.state.tree, Home(s.rows[x]));
    }
    AddSharedRow(cfg.sha, s, r.state, id, r.result.value, pick.value, loose);
  }

  lemma FilesFromParts(t: Tree, u: Tree)
    requires Blobs(u).Keys <= Blobs(t).Keys && Temps(u).Keys <= Temps(t).Keys
    ensures u.files.Keys <= t.files.Keys
  {
    forall f | f in u.files ensures f in t.files {
      assert f in Blobs(u) || f in Temps(u);
    }
  }

  /** The upload keeps its own object and its bucket runs through nobody's place. */
  lemma UploadOwnKeeps(cfg: Config, s: State, input: UploadInput, id: UUID, now: int, pick: Option<UUID>,
      loose: set<string>)
    requires InvExcept(cfg.sha, s, loose) && id !in loose
    requires PlainBucket(input.bucket) && Accepted(cfg, s, input.bucket) && FreshId(s, id)
    requires LatestWithHash(s.rows, cfg.sha(input.content), pick)
    requires pick.Some? ==> Free(s.tree, Home(s.rows[pick.value]))
    requires !(cfg.dedup && pick.Some? && Home(s.rows[pick.value]) in Blobs(s.tree))
    requires !RunsThrough(s, input.bucket, loose)
    ensures InvExcept(cfg.sha, Upload(cfg, s, input, id, now, pick).state, loose)
  {
    hide Upload, Shaped, Blobs, Temps, Home, PlainBucket, RowsCanonical, RowCanonical, SessionsOk, Accepted,
      BlobObject, References.InStep, FreshId, Free;
    UploadOutcome(cfg, s, input, id, now, pick);
    NotReused(cfg, s, input.bucket, pick, loose);
    var r := Upload(cfg, s, input, id, now, pick);
    NewRowShape(cfg, input, id, now);
    FreshUnused(s, id);
    FilesWithOwn(s.tree, r.state.tree, BlobObject(input.bucket, id), input.content);
    forall x | x in r.state.rows && x in loose ensures Free(r.state.tree, Home(r.state.rows[x])) {
      FreeBeside(s, r.state.tree, input.bucket, id, x);
    }
    AddOwnRow(cfg.sha, s, r.state, id, r.result.value, input.content, loose);
  }

  lemma FilesWithOwn(t: Tree, u: Tree, own: Path, content: Bytes)
    requires Blobs(u) == Blobs(t)[own := content] && Temps(u) == Temps(t)
    ensures forall f :: f in u.files ==> f in t.files || f == own
  {
    forall f | f in u.files ensures f in t.files || f == own {
      assert f in Blobs(u) || f in Temps(u);
    }
  }

  lemma NotReused(cfg: Config, s: State, bucket: string, pick: Option<UUID>, loose: set<string>)
    requires InvExcept(cfg.sha, s, loose) && (pick.Some? ==> pick.value in s.rows)
    requires !(cfg.dedup && pick.Some? && Home(s.rows[pick.value]) in Blobs(s.tree))
    requires !RunsThrough(s, bucket, loose)
    ensures !Reuses(cfg, s, bucket, pick)
  {
    hide Shaped, Blobs, Home, RowsCanonical, SessionsOk, LooseFree;
    if pick.Some? && pick.value !in loose {
      assert Refs(s.rows)[pick.value].home == Home(s.rows[pick.value]);
    }
  }

  /** A free place stays free beside a new object whose bucket does not run through it. */
  lemma FreeBeside(s: State, t: Tree, bucket: string, id: UUID, x: UUID)
    requires x in s.rows && Free(s.tree, Home(s.rows[x])) && FreshId(s, id)
    requires !(Home(s.rows[x]) <= Segments(bucket))
    requires t.dirs == s.tree.dirs + Ancestors(BlobObject(bucket, id))
    requires forall f :: f in t.files ==> f in s.tree.files || f == BlobObject(bucket, id)
    ensures Free(t, Home(s.rows[x]))
  {
    hide Home;
    WayToObject(s.tree, bucket, id);
    var own := BlobObject(bucket, id);
    assert Last(own) == id;
    if own < Home(s.rows[x]) {
      LastInside(own, Home(s.rows[x]));
    }
  }

  lemma LastInside(a: Path, b: Path)
    requires a != [] && a <= b
    ensures Last(a) in b
  {
    assert b[|a| - 1] == Last(a);
  }

  /** Otherwise the place of a loose row is taken by a directory, or the new row points at it. */
  lemma UploadThroughBreaks(cfg: Config, s: State, input: UploadInput, id: UUID, now: int, pick: Option<UUID>,
      loose: set<string>)
    requires InvExcept(cfg.sha, s, loose) && id !in loose
    requires PlainBucket(input.bucket) && Accepted(cfg, s, input.bucket) && FreshId(s, id)
    requires LatestWithHash(s.rows, cfg.sha(input.content), pick)
    requires pick.Some? ==> Free(s.tree, Home(s.rows[pick.value]))
    requires !(cfg.dedup && pick.Some? && Home(s.rows[pick.value]) in Blobs(s.tree))
    requires RunsThrough(s, input.bucket, loose)
    ensures var r := Upload(cfg, s, input, id, now, pick);
      && !InvExcept(cfg.sha, r.state, loose)
      && (Reuses(cfg, s, input.bucket, pick) ==> r.result.Ok? && Home(r.result.value) !in Blobs(r.state.tree))
  {
    hide Upload, Shaped, Blobs, Temps, Home, PlainBucket, RowsCanonical, SessionsOk, Accepted, BlobObject, FreshId,
      Free;
    UploadOutcome(cfg, s, input, id, now, pick);
    var r := Upload(cfg, s, input, id, now, pick);
    if Reuses(cfg, s, input.bucket, pick) {
      SamePathHome(r.result.value, s.rows[pick.value]);
      assert Refs(r.state.rows)[id].home == Home(r.result.value);
    } else {
      var x :| x in s.rows && x in loose && Home(s.rows[x]) <= Segments(input.bucket);
      FreshUnused(s, id);
      WayToObject(s.tree, input.bucket, id);
      assert Home(r.state.rows[x]) in r.state.tree.dirs;
      NotFree(r.state.tree, Home(r.state.rows[x]));
    }
  }

  lemma NotFree(t: Tree, p: Path)
    requires p in t.dirs
    ensures !Free(t, p)
  {
  }

  lemma SamePathHome(a: Blob, b: Blob)
    ensures a.path == b.path ==> Home(a) == Home(b)
  {
  }

  /** Dropping a row, with its object when nobody else points at it. */
  lemma DropRow(sha: Bytes -> string, s: State, id: UUID, loose: set<string>)
    requires InvExcept(sha, s, loose) && id in s.rows
    ensures var gone := RemovePhysical(s.rows, s.tree, s.rows[id].path);
      && gone.error == None
      && Blobs(gone.tree) == (if |Sharers(s.rows, s.rows[id].path)| > 1 then Blobs(s.tree)
                              else Blobs(s.tree) - {Home(s.rows[id])})
      && Temps(gone.tree) == Temps(s.tree)
      && InvExcept(sha, s.(rows := s.rows - {id}, tree := gone.tree), loose - {id})
  {
    hide Locate, LocatePath, PlainBucket, ObjectShape, DirShape, IsUuid, DeleteAt, Remove, RowCanonical, Free, Shaped,
      RowsCanonical, SessionsOk, Refs, References.InStep;
    var row := s.rows[id];
    var home := Home(row);
    HomesFree(sha, s, loose, id);
    RowLocation(s.tree, row);
    CanonicalRemove(s.rows, id);
    RefsRemove(s.rows, id);
    RefHome(s.rows, id);
    if |Sharers(s.rows, row.path)| > 1 {
      assert id in Sharers(s.rows, row.path);
      var other := AnotherSharer(s.rows, row.path, id);
      SamePathHome(s.rows[other], row);
      RefHome(s.rows, other);
      References.DropShared(sha, Refs(s.rows), Blobs(s.tree), loose, id, other);
      SessionsAfterDrop(s.sessions, s.rows, Blobs(s.tree), id, Blobs(s.tree));
    } else {
      OnlyReference(s.rows, id);
      References.DropOwn(sha, Refs(s.rows), Blobs(s.tree), loose, id);
      RowShape(row);
      RemoveShaped(s.tree, home);
      NotTemp(s.tree, home);
      SessionsAfterDrop(s.sessions, s.rows, Blobs(s.tree), id, Blobs(s.tree) - {home});
      forall x | x in s.rows && x in loose ensures Free(Remove(s.tree, home).tree, Home(s.rows[x])) {
        FreeShrinks(s.tree, Remove(s.tree, home).tree, Home(s.rows[x]));
      }
    }
  }

  lemma RefHome(rows: Rows, id: UUID)
    requires id in rows
    ensures id in Refs(rows) && Refs(rows)[id] == References.Ref(Home(rows[id]), rows[id].hash)
  {
    hide Home;
  }

  lemma RowShape(row: Blob)
    requires RowCanonical(row)
    ensures ObjectShape(Home(row)) && !IsTemp(Home(row))
  {
  }

  lemma NotTemp(t: Tree, f: Path)
    requires !IsTemp(f)
    ensures Temps(t) - {f} == Temps(t)
  {
  }

  lemma OnlyReference(rows: Rows, id: UUID)
    requires RowsCanonical(rows) && id in rows && |Sharers(rows, rows[id].path)| <= 1
    ensures forall x :: x in Refs(rows) && x != id ==> Refs(rows)[x].home != Refs(rows)[id].home
  {
    hide Home, RowCanonical;
    forall x | x in rows && x != id ensures Home(rows[x]) != Home(rows[id]) {
      if Home(rows[x]) == Home(rows[id]) {
        OnlySharer(rows, rows[id].path, id, x);
      }
    }
  }

  /** Delete keeps the invariant, and puts the deleted row's slack right. */
  lemma DeleteKeeps(sha: Bytes -> string, s: State, id: UUID, loose: set<string>)
    requires InvExcept(sha, s, loose)
    ensures InvExcept(sha, DeleteBlob(s, id).state, if id in s.rows then loose - {id} else loose)
    ensures DeleteBlob(s, id).result.Ok? <==> id in s.rows
  {
    if id in s.rows {
      DropRow(sha, s, id, loose);
    }
  }

  // ---------- failures in any state ----------

  /** What an upload answers, in any state and in the order of its checks; it adds a row exactly
      when it succeeds and changes no other. */
  lemma UploadAnswer(cfg: Config, s: State, input: UploadInput, id: UUID, now: int, pick: Option<UUID>)
    requires pick.Some? ==> pick.value in s.rows
    ensures var r := Upload(cfg, s, input, id, now, pick);
      var ensured := EnsureBucket(cfg.ensure, s.tree, input.bucket);
      && (if !ValidBucketName(input.bucket) then r.result == Err(InvalidBucket)
          else if ensured.error.Some? then r.result == Err(BucketFailed)
          else if !ValidComponent(input.bucket) || !Free(ensured.tree, BlobObject(input.bucket, id)) then
            r.result == Err(SaveFailed)
          else if id in s.rows then r.result == Err(MetadataFailed)
          else r.result.Ok?)
      && r.state.sessions == s.sessions
      && r.state.rows == (if r.result.Ok? then s.rows[id := r.result.value] else s.rows)
  {
    hide ValidBucketName, EnsureBucket, ValidComponent, Locate, Segments, ExistsAt, Delete;
    UuidPlain(id);
    LocateKey(input.bucket, id);
  }

  /** A row whose stored path leads nowhere, and that nobody shares, can neither be deleted nor
      purged: the attempt changes nothing. */
  lemma UnreachableStays(s: State, id: UUID, removed: nat)
    requires id in s.rows && s.rows[id].path != "" && LocatePath(s.rows[id].path).None?
    requires forall x :: x in s.rows && x != id ==> s.rows[x].path != s.rows[id].path
    ensures DeleteBlob(s, id) == Reply(s, Err(StorageFailed))
    ensures PurgeOne(Purged(s, removed), id, s.rows[id].path) == Purged(s, removed)
  {
    hide Locate;
    assert Sharers(s.rows, s.rows[id].path) == {id};
  }

  /** A row without a path goes without a look at the storage. */
  lemma PathlessGoes(s: State, id: UUID)
    requires id in s.rows && s.rows[id].path == ""
    ensures DeleteBlob(s, id) == Reply(s.(rows := s.rows - {id}), Ok(()))
  {
  }

  // ---------- edits ----------

  predicate AsksMove(input: EditInput) {
    input.bucket.Some? && input.bucket.value != ""
  }

  predicate HoldsOwnObject(row: Blob, id: UUID) {
    row.path == row.bucket + "/" + id
  }

  /** Moving the row to this bucket takes an object from others: the row holds it itself, other
      rows share it, and nothing is in the way at the new place. When the bucket is another
      spelling of the row's own, the object stays but gets a second path. */
  predicate LosesSharedObject(s: State, id: UUID, bucket: string) {
    && id in s.rows && bucket != s.rows[id].bucket
    && HoldsOwnObject(s.rows[id], id) && |Sharers(s.rows, s.rows[id].path)| > 1
    && Free(s.tree, BlobObject(bucket, id))
  }

  /** Moving the row to this bucket moves a directory, or tries to: the row borrows another row's
      object, nothing is in the way at its new place, and its own place is a directory because a
      bucket runs through it, or becomes one because the new bucket does. */
  predicate MovesOwnDirectory(s: State, id: UUID, bucket: string) {
    && id in s.rows && !HoldsOwnObject(s.rows[id], id)
    && Free(s.tree, BlobObject(bucket, id))
    && (BlobObject(s.rows[id].bucket, id) in s.tree.dirs || BlobObject(s.rows[id].bucket, id) < BlobObject(bucket, id))
  }

  /** The edits that break the store. */
  predicate EditBreaks(s: State, id: UUID, input: EditInput) {
    && AsksMove(input) && Readable(input.bucket.value)
    && (LosesSharedObject(s, id, input.bucket.value) || MovesOwnDirectory(s, id, input.bucket.value))
  }

  /** A bucket an edit may ask for: without `..`, and outside the chunk namespace when stored
      paths lead into it at all. */
  ghost predicate EditTarget(bucket: string) {
    ".." !in Split(bucket, '/') && (Readable(bucket) ==> PlainBucket(bucket))
  }

  /** A bucket into which no stored path leads is asked for in vain. */
  lemma EditRefused(s: State, id: UUID, input: EditInput)
    requires AsksMove(input) && EditTarget(input.bucket.value) && !Readable(input.bucket.value)
    ensures Edit(s, id, input) == Reply(s, Err(if id in s.rows then MoveFailed else NotFound))
  {
    hide Readable, Locate, BucketKey, PlainBucket;
    StoredPathLeads(input.bucket.value, id);
    if id in s.rows {
      MoveNowhere(s.tree, s.rows[id].bucket + "/" + id, input.bucket.value + "/" + id);
    }
  }

  lemma MoveNowhere(t: Tree, srcPath: string, dstPath: string)
    requires LocatePath(dstPath).None?
    ensures var (srcBucket, srcKey) := BucketKey(srcPath);
      var (dstBucket, dstKey) := BucketKey(dstPath);
      Move(t, srcBucket, srcKey, dstBucket, dstKey) == Done(t, Some(InvalidPath))
  {
    hide Locate, BucketKey, Rename;
  }

  lemma PlainIsTarget(bucket: string)
    requires PlainBucket(bucket)
    ensures bucket != "" && Readable(bucket) && EditTarget(bucket)
  {
  }

  lemma PlainPlaces(sha: Bytes -> string, s: State, id: UUID, bucket: string)
    requires Inv(sha, s) && id in s.rows && PlainBucket(bucket)
    ensures var src, dst := BlobObject(s.rows[id].bucket, id), BlobObject(bucket, id);
      && ObjectShape(src) && ObjectShape(dst) && !IsTemp(src) && !IsTemp(dst) && src != [] && dst != []
      && LocatePath(s.rows[id].bucket + "/" + id) == Some(src) && LocatePath(bucket + "/" + id) == Some(dst)
      && bucket != ""
  {
    hide ObjectShape, IsUuid, LocatePath, BlobObject, PlainBucket, NamedOwn, SessionsOk, Shaped;
    HoldsOwn(sha, s, id);
    BlobObjectShape(s.rows[id].bucket, id);
    BlobObjectShape(bucket, id);
    PlainIsTarget(bucket);
  }

  /** What the move inside Edit does when it moves no directory: it succeeds exactly when the row
      holds its own object and nothing is in the way at the new place. */
  lemma EditMove(sha: Bytes -> string, s: State, id: UUID, bucket: string)
    requires Inv(sha, s) && id in s.rows && PlainBucket(bucket)
    requires !MovesOwnDirectory(s, id, bucket)
    ensures var r := Edit(s, id, EditInput(None, Some(bucket), None));
      var src, dst := BlobObject(s.rows[id].bucket, id), BlobObject(bucket, id);
      && Shaped(r.state.tree)
      && (r.result.Ok? <==> HoldsOwnObject(s.rows[id], id) && Free(s.tree, dst))
      && (src in Blobs(s.tree) <==> HoldsOwnObject(s.rows[id], id))
      && Blobs(r.state.tree) == (if r.result.Ok? then MapMove(Blobs(s.tree), src, dst) else Blobs(s.tree))
      && Temps(r.state.tree) == Temps(s.tree)
  {
    hide Locate, BucketKey, ObjectShape, DirShape, IsUuid, Rename, Move, Shaped, BlobObject, Free, RowsCanonical,
      SessionsOk, IsTemp, PlainBucket, Refs, References.InStep;
    var row := s.rows[id];
    PlainPlaces(sha, s, id, bucket);
    var src, dst := BlobObject(row.bucket, id), BlobObject(bucket, id);
    MoveStored(s.tree, row.bucket + "/" + id, bucket + "/" + id);
    HoldsOwn(sha, s, id);
    RenameShaped(s.tree, src, dst);
    RenameBlob(s.tree, src, dst);
  }

  /** What it does otherwise: the directory moves with everything in it, or, when its new place
      lies inside it, an empty object is left there. */
  lemma EditMoveDirectory(sha: Bytes -> string, s: State, id: UUID, bucket: string)
    requires Inv(sha, s) && id in s.rows && PlainBucket(bucket)
    requires MovesOwnDirectory(s, id, bucket)
    ensures var r := Edit(s, id, EditInput(None, Some(bucket), None));
      var src, dst := BlobObject(s.rows[id].bucket, id), BlobObject(bucket, id);
      && (r.result.Ok? <==> src in s.tree.dirs && !(src < dst))
      && src !in s.tree.files && dst !in s.tree.files && !IsTemp(dst)
      && r.state.tree.files == (if r.result.Ok? then Relocated(s.tree.files, src, dst) else s.tree.files[dst := []])
  {
    hide Locate, BucketKey, ObjectShape, DirShape, IsUuid, Rename, Move, BlobObject, Free, RowsCanonical, SessionsOk,
      PlainBucket, Refs, References.InStep, Relocated, Valid;
    var row := s.rows[id];
    PlainPlaces(sha, s, id, bucket);
    MoveStored(s.tree, row.bucket + "/" + id, bucket + "/" + id);
    HoldsOwn(sha, s, id);
    NothingNamed(sha, s, id, bucket);
    RenameEffect(s.tree, BlobObject(row.bucket, id), BlobObject(bucket, id));
  }

  /** A row that borrows has no object under its own id, in any bucket. */
  lemma NothingNamed(sha: Bytes -> string, s: State, id: UUID, bucket: string)
    requires Inv(sha, s) && id in s.rows && PlainBucket(bucket) && !HoldsOwnObject(s.rows[id], id)
    ensures BlobObject(bucket, id) !in s.tree.files
  {
    hide ObjectShape, IsUuid, Home, PlainBucket, SessionsOk, Shaped, RowCanonical;
    BlobObjectShape(bucket, id);
    RefHome(s.rows, id);
    assert BlobObject(bucket, id) in s.tree.files ==> BlobObject(bucket, id) in Blobs(s.tree);
  }

  lemma HoldsOwn(sha: Bytes -> string, s: State, id: UUID)
    requires Inv(sha, s) && id in s.rows
    ensures PlainBucket(s.rows[id].bucket)
    ensures BlobObject(s.rows[id].bucket, id) in Blobs(s.tree) <==> HoldsOwnObject(s.rows[id], id)
    ensures BlobObject(s.rows[id].bucket, id) in s.tree.files <==> HoldsOwnObject(s.rows[id], id)
  {
    hide ObjectShape, IsUuid, SessionsOk, Shaped;
    var row := s.rows[id];
    assert RowCanonical(row);
    BlobObjectShape(row.bucket, id);
    assert Refs(s.rows)[id].home == Home(row);
    if BlobObject(row.bucket, id) in Blobs(s.tree) {
      assert Home(row) == BlobObject(row.bucket, id);
    }
  }

  /** Moving between two stored paths is renaming between the places they lead to. */
  lemma MoveStored(t: Tree, srcPath: string, dstPath: string)
    requires LocatePath(srcPath).Some? && LocatePath(dstPath).Some?
    ensures var (srcBucket, srcKey) := BucketKey(srcPath);
      var (dstBucket, dstKey) := BucketKey(dstPath);
      Move(t, srcBucket, srcKey, dstBucket, dstKey) == Rename(t, LocatePath(srcPath).value, LocatePath(dstPath).value)
  {
    hide Locate, BucketKey, Rename;
  }

  /** A row with the given name and expiry, where given. */
  function Edited(row: Blob, input: EditInput): (r: Blob)
    ensures r.hash == row.hash && r.size == row.size && r.createdAt == row.createdAt
    ensures r.bucket == row.bucket && r.path == row.path
  {
    var kept := input.filename == None || input.filename == Some("");
    var named := if kept then row else row.(filename := input.filename.value);
    if input.expiresAt == None then named else named.(expiresAt := input.expiresAt)
  }

  /** The row Edit leaves, whatever other fields it changes. */
  lemma EditFields(s: State, id: UUID, input: EditInput)
    requires id in s.rows && AsksMove(input)
    ensures var r, m := Edit(s, id, input), Edit(s, id, EditInput(None, input.bucket, None));
      && r.state.tree == m.state.tree && r.state.sessions == s.sessions && (r.result.Ok? <==> m.result.Ok?)
      && (r.result.Err? ==> r.state.rows == s.rows)
      && (r.result.Ok? ==>
            var row := r.result.value;
            && r.state.rows == s.rows[id := row]
            && row.bucket == input.bucket.value && row.path == input.bucket.value + "/" + id
            && row == Edited(s.rows[id], input).(bucket := row.bucket, path := row.path))
  {
    hide Locate, BucketKey, Move;
  }

  /** An edit keeps the invariant if and only if it neither carries a shared object away nor moves
      a directory. */
  lemma EditKeepsIff(sha: Bytes -> string, s: State, id: UUID, input: EditInput)
    requires Inv(sha, s) && (AsksMove(input) ==> EditTarget(input.bucket.value))
    ensures Inv(sha, Edit(s, id, input).state) <==> !EditBreaks(s, id, input)
  {
    hide InvExcept, PlainBucket, Readable, Blobs, Shaped, BlobObject, Free, LosesSharedObject, MovesOwnDirectory,
      Edit;
    if id !in s.rows {
      EditMissing(s, id, input);
    } else if !AsksMove(input) {
      EditInPlace(sha, s, id, input);
    } else if !Readable(input.bucket.value) {
      EditRefused(s, id, input);
    } else if MovesOwnDirectory(s, id, input.bucket.value) {
      EditDirectoryBreaks(sha, s, id, input);
    } else if LosesSharedObject(s, id, input.bucket.value) {
      EditLosesObject(sha, s, id, input);
    } else {
      EditFields(s, id, input);
      EditMove(sha, s, id, input.bucket.value);
      if Edit(s, id, input).result.Err? {
        SameBlobs(sha, s, Edit(s, id, input).state.tree, {});
        FailedEdit(s, id, input);
      } else {
        NotLosing(s, id, input.bucket.value);
        EditMovesOwn(sha, s, id, input);
      }
    }
  }

  lemma EditMissing(s: State, id: UUID, input: EditInput)
    requires id !in s.rows
    ensures Edit(s, id, input) == Reply(s, Err(NotFound))
    ensures !LosesSharedObject(s, id, if AsksMove(input) then input.bucket.value else "")
    ensures !MovesOwnDirectory(s, id, if AsksMove(input) then input.bucket.value else "")
  {
  }

  lemma FailedEdit(s: State, id: UUID, input: EditInput)
    requires Edit(s, id, input).result.Err?
    ensures Edit(s, id, input).state == s.(tree := Edit(s, id, input).state.tree)
  {
    hide Move, BucketKey;
  }

  lemma NotLosing(s: State, id: UUID, bucket: string)
    requires id in s.rows && !LosesSharedObject(s, id, bucket)
    requires HoldsOwnObject(s.rows[id], id) && Free(s.tree, BlobObject(bucket, id))
    ensures bucket == s.rows[id].bucket || |Sharers(s.rows, s.rows[id].path)| <= 1
  {
    hide Free;
  }

  /** What an edit does, exactly. An edit to a bucket into which no stored path leads changes
      nothing. Any other succeeds when it asks for no bucket, when the row holds its own object
      and nothing is in the way at the new place, or when it moves a directory to outside itself;
      then it changes that row as asked and no other. A failed edit changes no row, and no object
      either unless it tries to move a directory into itself. */
  lemma EditExact(sha: Bytes -> string, s: State, id: UUID, input: EditInput)
    requires Inv(sha, s) && id in s.rows && (AsksMove(input) ==> EditTarget(input.bucket.value))
    ensures var r, row := Edit(s, id, input), s.rows[id];
      if !AsksMove(input) then
        r.result == Ok(Edited(row, input)) && r.state == s.(rows := s.rows[id := Edited(row, input)])
      else if !Readable(input.bucket.value) then r == Reply(s, Err(MoveFailed))
      else
        var bucket := input.bucket.value;
        var src, dst := BlobObject(row.bucket, id), BlobObject(bucket, id);
        && (r.result.Ok? <==>
              || (HoldsOwnObject(row, id) && Free(s.tree, dst))
              || (MovesOwnDirectory(s, id, bucket) && src in s.tree.dirs && !(src < dst)))
        && (r.result.Ok? ==>
              && r.result.value == Edited(row, input).(bucket := bucket, path := bucket + "/" + id)
              && r.state.rows == s.rows[id := r.result.value])
        && (r.result.Err? ==> r.state.rows == s.rows)
        && (r.result.Err? && !MovesOwnDirectory(s, id, bucket) ==> Blobs(r.state.tree) == Blobs(s.tree))
        && (r.result.Err? && MovesOwnDirectory(s, id, bucket) ==> r.state.tree.files == s.tree.files[dst := []])
  {
    hide InvExcept, PlainBucket, Readable, Move, BucketKey, Blobs, Shaped, BlobObject, Free;
    if AsksMove(input) && !Readable(input.bucket.value) {
      EditRefused(s, id, input);
    } else if AsksMove(input) {
      EditFields(s, id, input);
      if MovesOwnDirectory(s, id, input.bucket.value) {
        EditMoveDirectory(sha, s, id, input.bucket.value);
      } else {
        EditMove(sha, s, id, input.bucket.value);
      }
    }
  }

  /** After an edit that moves a directory the row points at a directory, or an object is left
      that no row points at. */
  lemma EditDirectoryBreaks(sha: Bytes -> string, s: State, id: UUID, input: EditInput)
    requires Inv(sha, s) && AsksMove(input) && PlainBucket(input.bucket.value)
    requires MovesOwnDirectory(s, id, input.bucket.value)
    ensures !Inv(sha, Edit(s, id, input).state)
  {
    hide Edit, Shaped, Home, RowsCanonical, SessionsOk, BlobObject, PlainBucket, Relocated, Refs, RowCanonical,
      IsTemp, HoldsOwnObject;
    var bucket := input.bucket.value;
    EditFields(s, id, input);
    EditMoveDirectory(sha, s, id, bucket);
    var r := Edit(s, id, input);
    var src, dst := BlobObject(s.rows[id].bucket, id), BlobObject(bucket, id);
    BlobObjectShape(bucket, id);
    if r.result.Ok? {
      HomeOfOwn(r.result.value, id);
      RefHome(r.state.rows, id);
      NotRelocated(s.tree.files, src, dst);
    } else {
      assert dst in Blobs(r.state.tree);
      forall x | x in Refs(s.rows) ensures Refs(s.rows)[x].home != dst {
        assert Refs(s.rows)[x].home in Blobs(s.tree);
      }
      assert !References.Referenced(Refs(r.state.rows), dst);
    }
  }

  lemma NotRelocated(files: map<Path, Bytes>, src: Path, dst: Path)
    requires src !in files && dst !in files
    ensures dst !in Relocated(files, src, dst)
  {
    assert forall f :: f in files && src <= f && dst + f[|src|..] == dst ==> f == src;
  }

  lemma HomeOfOwn(row: Blob, id: UUID)
    requires PlainBucket(row.bucket) && HoldsOwnObject(row, id)
    ensures Home(row) == BlobObject(row.bucket, id)
  {
    BlobObjectShape(row.bucket, id);
  }

  lemma EditInPlace(sha: Bytes -> string, s: State, id: UUID, input: EditInput)
    requires Inv(sha, s) && id in s.rows && !AsksMove(input)
    ensures Inv(sha, Edit(s, id, input).state)
  {
    hide PlainBucket, ObjectShape, IsUuid, Shaped, Edit, References.InStep, References.Unused, Refs, RowsCanonical;
    var row := Edited(s.rows[id], input);
    assert Edit(s, id, input).state == s.(rows := s.rows[id := row]) by { EditExact(sha, s, id, input); }
    SameRefs(s.rows, id, row);
  }

  /** A row that changes neither place nor hash changes nothing about the references. */
  lemma SameRefs(rows: Rows, id: UUID, row: Blob)
    requires RowsCanonical(rows) && id in rows && row.path == rows[id].path && row.hash == rows[id].hash
    requires row.bucket == rows[id].bucket
    ensures RowsCanonical(rows[id := row]) && Refs(rows[id := row]) == Refs(rows)
  {
    hide Home, PlainBucket, ObjectShape, IsTemp, LocatePath;
    SamePathHome(row, rows[id]);
    assert RowCanonical(rows[id]);
    SharedHome(rows, row, id);
    CanonicalUpdate(rows, id, row);
  }

  /** The new state in terms of references and objects. */
  lemma EditMoved(sha: Bytes -> string, s: State, id: UUID, input: EditInput)
    requires Inv(sha, s) && id in s.rows && AsksMove(input) && PlainBucket(input.bucket.value)
    requires Edit(s, id, input).result.Ok? && !MovesOwnDirectory(s, id, input.bucket.value)
    ensures var r := Edit(s, id, input).state;
      var src, dst := Home(s.rows[id]), BlobObject(input.bucket.value, id);
      && src in Blobs(s.tree) && dst != [] && Last(dst) == id
      && Shaped(r.tree) && r.sessions == s.sessions
      && id in r.rows && RowCanonical(r.rows[id]) && HoldsOwnObject(r.rows[id], id)
      && HoldsOwnObject(s.rows[id], id) && r.rows[id].bucket == input.bucket.value
      && Home(r.rows[id]) == dst && r.rows == s.rows[id := r.rows[id]]
      && id in Refs(s.rows) && Refs(s.rows)[id].home == src
      && Refs(r.rows) == Refs(s.rows)[id := References.Ref(dst, Refs(s.rows)[id].hash)]
      && Blobs(r.tree) == MapMove(Blobs(s.tree), src, dst)
      && (input.bucket.value == s.rows[id].bucket ==> dst == src)
  {
    hide LocatePath, ObjectShape, IsUuid, Edit, Shaped, Blobs, Free, MovesOwnDirectory, Home, PlainBucket, IsTemp,
      BlobObject, SessionsOk, References.InStep, LooseFree;
    EditFields(s, id, input);
    EditMove(sha, s, id, input.bucket.value);
    var row := Edit(s, id, input).result.value;
    BlobObjectShape(row.bucket, id);
    OwnShape(row, id);
    HomeOfOwn(row, id);
    RefsUpdate(s.rows, id, row);
    RefHome(s.rows, id);
    StoredOwn(s, id);
  }

  lemma OwnShape(row: Blob, id: UUID)
    requires PlainBucket(row.bucket) && HoldsOwnObject(row, id)
    ensures RowCanonical(row)
  {
    hide PlainBucket, LocatePath, Segments, ObjectShape, IsTemp;
    BlobObjectShape(row.bucket, id);
  }

  /** The only object that can bear a row's name is the row's own. */
  lemma OwnedByRow(sha: Bytes -> string, s: State, id: UUID, dst: Path)
    requires Inv(sha, s) && id in s.rows && dst != [] && Last(dst) == id
    ensures dst in Blobs(s.tree) ==> dst == Home(s.rows[id])
  {
    hide Shaped, Blobs, Home, RowsCanonical, SessionsOk;
    RefHome(s.rows, id);
  }

  /** Afterwards rows at the same place still have the same path. */
  lemma EditMovedCanonical(sha: Bytes -> string, s: State, id: UUID, row: Blob)
    requires Inv(sha, s) && id in s.rows && RowCanonical(row) && HoldsOwnObject(row, id)
    requires Home(row) != [] && Last(Home(row)) == id
    requires row.bucket == s.rows[id].bucket ==> row.path == s.rows[id].path
    requires row.bucket == s.rows[id].bucket || |Sharers(s.rows, s.rows[id].path)| <= 1
    ensures RowsCanonical(s.rows[id := row])
  {
    hide Shaped, Blobs, Home, RowsCanonical, RowCanonical, SessionsOk, Refs, References.InStep, LooseFree;
    if row.bucket == s.rows[id].bucket {
      SharedHome(s.rows, row, id);
    } else {
      OnlyReference(s.rows, id);
      OwnedByRow(sha, s, id, Home(row));
      forall x | x in s.rows && x != id ensures Home(s.rows[x]) != Home(row) {
        TightRow(sha, s, {}, x);
        RefHome(s.rows, x);
        RefHome(s.rows, id);
      }
    }
    CanonicalUpdate(s.rows, id, row);
  }


  lemma EditMovesOwn(sha: Bytes -> string, s: State, id: UUID, input: EditInput)
    requires Inv(sha, s) && id in s.rows && AsksMove(input) && PlainBucket(input.bucket.value)
    requires Edit(s, id, input).result.Ok? && !MovesOwnDirectory(s, id, input.bucket.value)
    requires input.bucket.value == s.rows[id].bucket || |Sharers(s.rows, s.rows[id].path)| <= 1
    ensures Inv(sha, Edit(s, id, input).state)
  {
    hide Edit, Shaped, Blobs, Refs, Home, RowsCanonical, RowCanonical, SessionsOk, BlobObject, MovesOwnDirectory,
      PlainBucket, References.InStep;
    EditMoved(sha, s, id, input);
    EditMovedCanonical(sha, s, id, Edit(s, id, input).state.rows[id]);
    var r := Edit(s, id, input).state;
    var dst := BlobObject(input.bucket.value, id);
    SessionsAfterMove(s.sessions, s.rows, Blobs(s.tree), id, r.rows[id], Blobs(r.tree));
    if input.bucket.value == s.rows[id].bucket {
      RefsUnchanged(Refs(s.rows), id);
      MoveOntoItself(Blobs(s.tree), dst);
    } else {
      OnlyReference(s.rows, id);
      References.MoveOwn(sha, Refs(s.rows), Blobs(s.tree), id, dst);
    }
  }

  lemma RefsUnchanged(refs: References.Refs, id: string)
    requires id in refs
    ensures refs[id := refs[id]] == refs
  {
  }

  lemma SessionsAfterMove(sessions: Sessions, rows: Rows, blobs: map<Path, Bytes>, id: UUID, row: Blob,
      blobs': map<Path, Bytes>)
    requires SessionsOk(sessions, rows, blobs) && id in rows
    requires Home(row) != [] && Last(Home(row)) == id
    requires blobs'.Keys <= blobs.Keys + {Home(row)}
    ensures SessionsOk(sessions, rows[id := row], blobs')
  {
    RefsUpdate(rows, id, row);
    forall x | x in sessions && !sessions[x].completed
      ensures References.Unused(Refs(rows[id := row]), blobs', x)
    {
      assert References.Unused(Refs(rows), blobs, x);
      assert id in Refs(rows);
      References.UnusedAfterMove(Refs(rows), blobs, id, References.Ref(Home(row), row.hash), blobs', x);
    }
  }

  lemma EditLosesObject(sha: Bytes -> string, s: State, id: UUID, input: EditInput)
    requires Inv(sha, s) && AsksMove(input) && PlainBucket(input.bucket.value)
    requires LosesSharedObject(s, id, input.bucket.value)
    ensures !Inv(sha, Edit(s, id, input).state)
  {
    hide Locate, ObjectShape, DirShape, IsUuid, Edit, Shaped, RowsCanonical, SessionsOk, Free, Home, BlobObject,
      PlainBucket;
    EditFields(s, id, input);
    EditMove(sha, s, id, input.bucket.value);
    var r := Edit(s, id, input);
    var src, dst := BlobObject(s.rows[id].bucket, id), BlobObject(input.bucket.value, id);
    assert id in Sharers(s.rows, s.rows[id].path);
    var other := AnotherSharer(s.rows, s.rows[id].path, id);
    SamePathHome(s.rows[other], s.rows[id]);
    StoredOwn(s, id);
    if src == dst {
      HomeOfOwn(r.result.value, id);
      TwoPaths(s.rows[id].bucket, input.bucket.value, id);
      TwoPathsBreak(r.state.rows, id, other);
    } else {
      assert Refs(s.rows)[other].home == src;
      assert Refs(r.state.rows)[other] == Refs(s.rows)[other];
      assert src !in Blobs(r.state.tree);
    }
  }

  lemma TwoPaths(a: string, b: string, id: UUID)
    requires a != b
    ensures a + "/" + id != b + "/" + id
  {
    hide IsUuid;
    assert (a + "/" + id)[..|a + "/" + id| - |id| - 1] == a;
    assert (b + "/" + id)[..|b + "/" + id| - |id| - 1] == b;
  }

  lemma TwoPathsBreak(rows: Rows, x: UUID, y: UUID)
    requires x in rows && y in rows && Home(rows[x]) == Home(rows[y]) && rows[x].path != rows[y].path
    ensures !RowsCanonical(rows)
  {
    hide RowCanonical, Home;
  }

  lemma StoredOwn(s: State, id: UUID)
    requires RowsCanonical(s.rows) && id in s.rows && HoldsOwnObject(s.rows[id], id)
    ensures Home(s.rows[id]) == BlobObject(s.rows[id].bucket, id)
  {
    assert RowCanonical(s.rows[id]);
    BlobObjectShape(s.rows[id].bucket, id);
  }
}
