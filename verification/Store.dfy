/** The state the services keep in step: blob rows, upload sessions and the stored tree. */
module Store {
  import opened Wrappers
  import opened Text
  import opened Paths
  import opened Trees

  /** Which EnsureBucket the driver has: the one in its source, which rejects every bucket,
      or the one its interface promises. */
  datatype BucketCreation = AsWritten | AsPromised

  /** Settings; a limit that is not positive is off. sha is SHA-256 in hexadecimal, left open. */
  datatype Config = Config(
    sha: Bytes -> string,
    dedup: bool,
    minChunk: int,
    maxChunk: int,
    maxUpload: int,
    ensure: BucketCreation)

  datatype Blob = Blob(
    bucket: string,
    filename: string,
    size: int,
    hash: string,
    path: string,
    expiresAt: Option<int>,
    createdAt: int)

  datatype Session = Session(
    owner: UUID,
    bucket: string,
    filename: string,
    size: int,
    chunksDone: seq<int>,
    completed: bool,
    createdAt: int)

  type Rows = map<UUID, Blob>
  type Sessions = map<UUID, Session>

  datatype State = State(rows: Rows, sessions: Sessions, tree: Tree)

  datatype Failure =
    | InvalidBucket | BucketFailed | SaveFailed | MetadataFailed | NotFound | MoveFailed | StorageFailed
    | InvalidUpload | Unauthorized | AlreadyCompleted | MissingHash
    | ChunkTooSmall | ChunkTooLarge | HashMismatch | UploadTooLarge
    | NoChunks | MissingChunk | SessionFailed | TooManyChunks

  datatype Reply<+T> = Reply(state: State, result: Result<T, Failure>)

  function EnsureBucket(mode: BucketCreation, t: Tree, bucket: string): Done {
    match mode
    case AsWritten => EnsureBucketAsWritten(t, bucket)
    case AsPromised => EnsureBucketAsPromised(t, bucket)
  }

  /** The hash is printed in lower-case hexadecimal, as SHA-256 is here. */
  ghost predicate PrintsHex(sha: Bytes -> string) {
    forall x :: IsLowerHex(sha(x))
  }

  // ---------- what the tables answer ----------

  /** GetByHash: a most recent row with that hash, or none when there is no such row. */
  ghost predicate LatestWithHash(rows: Rows, hash: string, pick: Option<UUID>) {
    match pick
    case None => forall id :: id in rows ==> rows[id].hash != hash
    case Some(x) =>
      && x in rows && rows[x].hash == hash
      && forall id :: id in rows && rows[id].hash == hash ==> rows[id].createdAt <= rows[x].createdAt
  }

  /** FindByPath. */
  function Sharers(rows: Rows, path: string): set<UUID> {
    set id | id in rows && rows[id].path == path
  }

  /** FindExpired. */
  function Expired(rows: Rows, now: int): set<UUID> {
    set id | id in rows && rows[id].expiresAt.Some? && rows[id].expiresAt.value <= now
  }

  /** FindIncompleteOlderThan. */
  function Stale(sessions: Sessions, cutoff: int): set<UUID> {
    set id | id in sessions && !sessions[id].completed && sessions[id].createdAt < cutoff
  }

  ghost predicate Distinct<T>(xs: seq<T>) {
    forall i, j :: 0 <= i < j < |xs| ==> xs[i] != xs[j]
  }

  function Ids(order: seq<UUID>): set<UUID> {
    set id | id in order
  }

  /** A query result: each of these ids once, in an order of the database's choosing. */
  ghost predicate Lists(order: seq<UUID>, ids: set<UUID>) {
    Distinct(order) && forall id :: id in ids <==> id in order
  }

  lemma {:induction false} DistinctCount(order: seq<UUID>)
    requires Distinct(order)
    ensures |Ids(order)| == |order|
    decreases |order|
  {
    if order != [] {
      DistinctCount(order[1..]);
      assert Ids(order) == {order[0]} + Ids(order[1..]);
    }
  }
}
