/** The size a completed upload is recorded with is the one declared when it was opened. */
module DeclaredSize {
  import opened Paths
  import opened Trees
  import opened Store
  import opened MultipartModel
  import opened Shapes
  import opened Integrity
  import opened MultipartIntegrity
  import opened UploadCap
  import opened Accounting
  import References

  lemma {:induction false} StoredInsert(temps: Chunks, id: UUID, x: int, xs: seq<int>)
    ensures Stored(temps, id, Insert(x, xs)) == SizeOf(temps, id, x) + Stored(temps, id, xs)
    decreases |xs|
  {
    hide SizeOf;
    if xs == [] || x <= xs[0] {
      assert ([x] + xs)[1..] == xs;
    } else {
      StoredInsert(temps, id, x, xs[1..]);
      assert ([xs[0]] + Insert(x, xs[1..]))[1..] == Insert(x, xs[1..]);
    }
  }

  /** Sorting the recorded indices does not change what they take. */
  lemma {:induction false} StoredSort(temps: Chunks, id: UUID, xs: seq<int>)
    ensures Stored(temps, id, Sort(xs)) == Stored(temps, id, xs)
    decreases |xs|
  {
    hide SizeOf;
    if xs != [] {
      StoredSort(temps, id, xs[1..]);
      StoredInsert(temps, id, xs[0], Sort(xs[1..]));
    }
  }

  /** The assembled file is as long as its chunks together. */
  lemma {:induction false} AssembledLength(t: Tree, id: UUID, order: seq<int>)
    requires Shaped(t) && Assemble(t, id, order).Some?
    ensures |Assemble(t, id, order).value| == Stored(Temps(t), id, order)
    decreases |order|
  {
    hide Shaped, Temps, ChunkObject, Open;
    if order != [] {
      ReadChunk(t, id, order[0]);
      AssembledLength(t, id, order[1..]);
    }
  }

  /** A successful Complete keeps the row sizes true exactly when the session declared as many
      bytes as its recorded chunks take. */
  lemma CompleteSizesIff(cfg: Config, s: State, input: CompleteInput, now: int)
    requires Inv(cfg.sha, s) && SizesTrue(s.rows, Blobs(s.tree))
    requires Complete(cfg, s, input, now).result.Ok?
    ensures var r, upload := Complete(cfg, s, input, now).state, s.sessions[input.uploadId];
      SizesTrue(r.rows, Blobs(r.tree)) <==> upload.size == Stored(Temps(s.tree), input.uploadId, upload.chunksDone)
  {
    hide Shaped, Temps, Blobs, RowsCanonical, SessionsOk, PlainBucket, BlobObject, Assemble, Home, Stored, Sort,
      Promote, Put, Delete;
    var id, upload := input.uploadId, s.sessions[input.uploadId];
    CompleteOutcome(cfg, s, input, now);
    var r := Complete(cfg, s, input, now);
    var content := Assemble(s.tree, id, Sort(upload.chunksDone)).value;
    AssembledLength(s.tree, id, Sort(upload.chunksDone));
    StoredSort(Temps(s.tree), id, upload.chunksDone);
    HomesStored(cfg.sha, s);
    OpenBucket(cfg.sha, s, id);
    var own := BlobObject(upload.bucket, id);
    CommittedHome(upload.bucket, id, r.result.value);
    SizesAfter(s.rows, Blobs(s.tree), id, r.result.value, own, content);
  }

  lemma OpenBucket(sha: Bytes -> string, s: State, id: UUID)
    requires Inv(sha, s) && id in s.sessions && !s.sessions[id].completed
    ensures PlainBucket(s.sessions[id].bucket) && id !in s.rows
    ensures BlobObject(s.sessions[id].bucket, id) !in Blobs(s.tree)
  {
    hide Shaped, RowsCanonical, Blobs, PlainBucket;
    BlobObjectShape(s.sessions[id].bucket, id);
    assert References.Unused(Refs(s.rows), Blobs(s.tree), id);
  }

  lemma CommittedHome(bucket: string, id: UUID, row: Blob)
    requires PlainBucket(bucket) && row.path == bucket + "/" + id
    ensures Home(row) == BlobObject(bucket, id)
  {
    BlobObjectShape(bucket, id);
  }

  lemma SizesAfter(rows: Rows, blobs: map<Path, Bytes>, id: UUID, row: Blob, own: Path, content: Bytes)
    requires SizesTrue(rows, blobs) && own !in blobs && Home(row) == own && id !in rows
    requires forall x :: x in rows ==> Home(rows[x]) in blobs
    ensures SizesTrue(rows[id := row], blobs[own := content]) <==> row.size == |content|
  {
    hide Home;
    var rows', blobs' := rows[id := row], blobs[own := content];
    assert rows'[id] == row && blobs'[own] == content;
  }
}
