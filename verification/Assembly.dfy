/** The order in which Complete assembles chunks, and what Status reports. */
module Assembly {
  import opened Wrappers
  import opened Text
  import opened Decimal
  import opened Int64
  import opened Paths
  import opened Trees
  import opened Store
  import opened MultipartModel
  import opened Shapes
  import opened Integrity
  import opened MultipartIntegrity

  ghost predicate Sorted(xs: seq<int>) {
    xs == [] || ((forall v :: v in xs[1..] ==> xs[0] <= v) && Sorted(xs[1..]))
  }

  lemma {:induction false} InsertAdds(x: int, xs: seq<int>)
    ensures multiset(Insert(x, xs)) == multiset(xs) + multiset{x}
    decreases |xs|
  {
    if xs != [] {
      assert xs == [xs[0]] + xs[1..];
      if x > xs[0] {
        InsertAdds(x, xs[1..]);
      }
    }
  }

  lemma InsertMembers(x: int, xs: seq<int>, v: int)
    ensures v in Insert(x, xs) <==> v == x || v in xs
  {
    hide Insert;
    InsertAdds(x, xs);
    assert v in Insert(x, xs) <==> v in multiset(Insert(x, xs));
    assert v in xs <==> v in multiset(xs);
  }

  lemma {:induction false} InsertSorts(x: int, xs: seq<int>)
    requires Sorted(xs)
    ensures Sorted(Insert(x, xs))
    decreases |xs|
  {
    if xs == [] || x <= xs[0] {
      assert ([x] + xs)[1..] == xs;
      assert xs != [] ==> forall v :: v in xs ==> v == xs[0] || v in xs[1..];
    } else {
      InsertSorts(x, xs[1..]);
      var rest := Insert(x, xs[1..]);
      assert ([xs[0]] + rest)[1..] == rest;
      forall v | v in rest ensures xs[0] <= v {
        InsertMembers(x, xs[1..], v);
      }
    }
  }

  lemma {:induction false} SortSorts(xs: seq<int>)
    ensures Sorted(Sort(xs)) && multiset(Sort(xs)) == multiset(xs)
    decreases |xs|
  {
    if xs != [] {
      SortSorts(xs[1..]);
      InsertSorts(xs[0], Sort(xs[1..]));
      InsertAdds(xs[0], Sort(xs[1..]));
      assert xs == [xs[0]] + xs[1..];
    }
  }

  /** A collection has one sorted arrangement. */
  lemma {:induction false} SortedUnique(a: seq<int>, b: seq<int>)
    requires Sorted(a) && Sorted(b) && multiset(a) == multiset(b)
    ensures a == b
    decreases |a|
  {
    assert |multiset(a)| == |a| && |multiset(b)| == |b|;
    if a != [] {
      assert a[0] in multiset(b) && b[0] in multiset(a);
      HeadLeast(a, b[0]);
      HeadLeast(b, a[0]);
      TailMultiset(a);
      TailMultiset(b);
      SortedUnique(a[1..], b[1..]);
    }
  }

  lemma HeadLeast(xs: seq<int>, v: int)
    requires Sorted(xs) && v in xs
    ensures xs[0] <= v
  {
    assert v == xs[0] || v in xs[1..];
  }

  lemma TailMultiset(xs: seq<int>)
    requires xs != []
    ensures multiset(xs[1..]) == multiset(xs) - multiset{xs[0]}
  {
    assert xs == [xs[0]] + xs[1..];
  }

  lemma {:induction false} DistinctMultiset(xs: seq<int>, v: int)
    requires Distinct(xs)
    ensures multiset(xs)[v] == if v in xs then 1 else 0
    decreases |xs|
  {
    if xs != [] {
      assert xs == [xs[0]] + xs[1..];
      DistinctMultiset(xs[1..], v);
    }
  }

  function Range(n: nat): seq<int> {
    seq(n, i => i)
  }

  lemma {:induction false} OrderedIsSorted(xs: seq<int>)
    requires forall i, j :: 0 <= i < j < |xs| ==> xs[i] <= xs[j]
    ensures Sorted(xs)
    decreases |xs|
  {
    if xs != [] {
      OrderedIsSorted(xs[1..]);
    }
  }

  /** Recorded indices that are just 0 to n-1, in any order, are assembled in that order. */
  lemma SortRange(xs: seq<int>, n: nat)
    requires Distinct(xs) && forall v :: v in xs <==> 0 <= v < n
    ensures Sort(xs) == Range(n)
  {
    SortSorts(xs);
    forall v ensures multiset(xs)[v] == multiset(Range(n))[v] {
      DistinctMultiset(xs, v);
      DistinctMultiset(Range(n), v);
      assert 0 <= v < n ==> Range(n)[v] == v;
    }
    assert multiset(xs) == multiset(Range(n));
    OrderedIsSorted(Range(n));
    SortedUnique(Sort(xs), Range(n));
  }

  lemma SortedAlike(a: seq<int>, b: seq<int>)
    requires multiset(a) == multiset(b)
    ensures Sort(a) == Sort(b) && (a == [] <==> b == [])
  {
    SortSorts(a);
    SortSorts(b);
    SortedUnique(Sort(a), Sort(b));
    assert |multiset(a)| == |a| && |multiset(b)| == |b|;
  }

  /** Complete does not depend on the order in which the chunks were recorded. */
  lemma CompleteOrderIndependent(cfg: Config, s: State, input: CompleteInput, now: int, chunks: seq<int>)
    requires input.uploadId in s.sessions && multiset(chunks) == multiset(s.sessions[input.uploadId].chunksDone)
    ensures var other :=
      s.(sessions := s.sessions[input.uploadId := s.sessions[input.uploadId].(chunksDone := chunks)]);
      var a, b := Complete(cfg, s, input, now), Complete(cfg, other, input, now);
      a.result == b.result && a.state.rows == b.state.rows && a.state.tree == b.state.tree
  {
    hide Put, Delete, Assemble, FinalKey, Promote, Sort;
    var done := s.sessions[input.uploadId].chunksDone;
    SortedAlike(done, chunks);
    var put := Put(s.tree, CHUNK_BUCKET, FinalKey(input.uploadId), []).tree;
    var content := Assemble(put, input.uploadId, Sort(done));
    if content.Some? {
      var t := Put(put, CHUNK_BUCKET, FinalKey(input.uploadId), content.value).tree;
      PromoteIgnoresOrder(cfg, s.(tree := t), input, content.value, now, chunks);
    }
  }

  lemma PromoteIgnoresOrder(cfg: Config, s: State, input: CompleteInput, content: Bytes, now: int, chunks: seq<int>)
    requires input.uploadId in s.sessions
    ensures var upload := s.sessions[input.uploadId];
      var other := s.(sessions := s.sessions[input.uploadId := upload.(chunksDone := chunks)]);
      var a := Promote(cfg, s, input, upload, content, now);
      var b := Promote(cfg, other, input, upload.(chunksDone := chunks), content, now);
      a.result == b.result && a.state.rows == b.state.rows && a.state.tree == b.state.tree
  {
    hide Delete, Move, RemoveTree, FinalKey, EqualFold;
  }

  // ---------- what is assembled ----------

  function Concat(parts: seq<Bytes>): Bytes {
    if parts == [] then [] else parts[0] + Concat(parts[1..])
  }

  /** Assembly yields the stored chunks one after the other, provided they are all stored. */
  lemma {:induction false} AssembleConcat(t: Tree, id: UUID, order: seq<int>)
    requires Shaped(t)
    ensures Assemble(t, id, order).Some? <==> forall i :: i in order ==> ChunkObject(id, i) in Temps(t)
    ensures Assemble(t, id, order).Some? ==>
      Assemble(t, id, order).value == Concat(ChunkBytes(Temps(t), id, order))
    decreases |order|
  {
    hide Shaped, Temps, ChunkObject, Open;
    if order != [] {
      ReadChunk(t, id, order[0]);
      AssembleConcat(t, id, order[1..]);
      assert forall i :: i in order <==> i == order[0] || i in order[1..];
      assert ChunkBytes(Temps(t), id, order)[1..] == ChunkBytes(Temps(t), id, order[1..]);
    }
  }

  function ChunkBytes(temps: map<Path, Bytes>, id: UUID, order: seq<int>): (r: seq<Bytes>)
    ensures |r| == |order|
  {
    seq(|order|, k requires 0 <= k < |order| =>
      if ChunkObject(id, order[k]) in temps then temps[ChunkObject(id, order[k])] else [])
  }

  /** A session is completed exactly when all its recorded chunks are stored, their
      concatenation in ascending index order has the final hash, and nothing is in the way at
      the blob's place; that concatenation is then the stored blob. */
  lemma CompleteStoresConcatenation(cfg: Config, s: State, input: CompleteInput, now: int)
    requires Inv(cfg.sha, s) && Completable(s, input)
    ensures var r, id, upload := Complete(cfg, s, input, now), input.uploadId, s.sessions[input.uploadId];
      var content := Concat(ChunkBytes(Temps(s.tree), id, Sort(upload.chunksDone)));
      && Sorted(Sort(upload.chunksDone)) && multiset(Sort(upload.chunksDone)) == multiset(upload.chunksDone)
      && (r.result.Ok? <==>
            && (forall i :: i in upload.chunksDone ==> ChunkObject(id, i) in Temps(s.tree))
            && EqualFold(cfg.sha(content), input.finalHash)
            && Free(s.tree, BlobObject(upload.bucket, id)))
      && (r.result.Ok? ==> Blobs(r.state.tree) == Blobs(s.tree)[BlobObject(upload.bucket, id) := content])
  {
    hide Inv, Shaped, Temps, Blobs, ChunkObject, Complete, BlobObject, Assemble, Free;
    var id, done := input.uploadId, s.sessions[input.uploadId].chunksDone;
    ShapedInv(cfg.sha, s);
    CompleteOutcome(cfg, s, input, now);
    AssembleConcat(s.tree, id, Sort(done));
    SortSorts(done);
    SortMembers(done);
  }

  /** What Complete answers, in the order of its checks. With a hash printed in lower-case
      hexadecimal, the final hash has to spell the hash of the concatenated chunks, in capitals or
      not, and the first thing that is wrong is the answer. */
  lemma CompleteAnswer(cfg: Config, s: State, input: CompleteInput, now: int)
    requires Inv(cfg.sha, s) && PrintsHex(cfg.sha)
    ensures var r, id := Complete(cfg, s, input, now), input.uploadId;
      if input.finalHash == "" then r.result == Err(MissingHash)
      else if id !in s.sessions then r.result == Err(InvalidUpload)
      else
        var upload := s.sessions[id];
        var content := Concat(ChunkBytes(Temps(s.tree), id, Sort(upload.chunksDone)));
        if upload.owner != input.userId then r.result == Err(Unauthorized)
        else if upload.completed then r.result == Err(AlreadyCompleted)
        else if upload.chunksDone == [] then r.result == Err(NoChunks)
        else if exists i :: i in upload.chunksDone && ChunkObject(id, i) !in Temps(s.tree) then
          r.result == Err(MissingChunk)
        else if !Spells(input.finalHash, cfg.sha(content)) then r.result == Err(HashMismatch)
        else if !Free(s.tree, BlobObject(upload.bucket, id)) then r.result == Err(MoveFailed)
        else r.result == Ok(Blob(upload.bucket, upload.filename, upload.size, cfg.sha(content),
                                 upload.bucket + "/" + id, None, now))
  {
    hide Inv, Shaped, Temps, Blobs, ChunkObject, BlobObject, Assemble, Free, EqualFold, Spells, Promote, Put, Delete;
    var id := input.uploadId;
    if Completable(s, input) {
      var done := s.sessions[id].chunksDone;
      ShapedInv(cfg.sha, s);
      CompleteOutcome(cfg, s, input, now);
      AssembleConcat(s.tree, id, Sort(done));
      SortMembers(done);
      FoldsIff(cfg.sha(Concat(ChunkBytes(Temps(s.tree), id, Sort(done)))), input.finalHash);
    }
  }

  lemma SortMembers(xs: seq<int>)
    ensures forall i :: i in Sort(xs) <==> i in xs
  {
    SortSorts(xs);
    forall i ensures i in xs <==> i in Sort(xs) {
      assert i in xs <==> i in multiset(xs);
      assert i in Sort(xs) <==> i in multiset(Sort(xs));
    }
  }

  lemma ShapedInv(sha: Bytes -> string, s: State)
    requires Inv(sha, s)
    ensures Shaped(s.tree)
  {
    hide Shaped, RowsCanonical, SessionsOk;
  }

  // ---------- status ----------

  /** Status lists exactly the unrecorded indices below the chunk count, in order. */
  lemma {:induction false} MissingExact(done: seq<int>, i: int, total: int)
    ensures forall v :: v in Missing(done, i, total) <==> i <= v < total && v !in done
    ensures Missing(done, i, total) == [] <==> forall v :: i <= v < total ==> v in done
    ensures Sorted(Missing(done, i, total)) && Distinct(Missing(done, i, total))
    decreases total - i
  {
    if i < total {
      MissingExact(done, i + 1, total);
      var rest := Missing(done, i + 1, total);
      if i !in done {
        assert Missing(done, i, total) == [i] + rest;
        assert ([i] + rest)[1..] == rest;
      } else {
        assert Missing(done, i, total) == [] + rest == rest;
      }
      assert i !in rest;
    }
  }

  /** The chunk count is the size divided by the chunk size, rounded up, exactly when their sum
      fits 64 bits; beyond that it is not positive, and Status has nothing to list. */
  lemma TotalIsCeiling(size: int, chunkSize: int)
    requires 0 < size <= MAX_INT64 && chunkSize <= MAX_INT64
    ensures var n, total := EffectiveChunkSize(chunkSize), TotalChunks(size, chunkSize);
      && (size + n - 1 <= MAX_INT64 <==> (total - 1) * n < size <= total * n)
      && (size + n - 1 > MAX_INT64 ==> forall done :: Missing(done, 0, total) == [])
  {
    hide RoundedUp;
    RoundsUpIff(size, EffectiveChunkSize(chunkSize));
  }

  /** What Status answers. An unknown session and a stranger are turned away. Otherwise, with the
      chunk size asked for, or 102400 when that is not positive, a size of more than 10000 chunks is
      refused, and any other is answered with the size divided by the chunk size, rounded up, and
      the unrecorded indices below that, ascending, each once. When rounding up does not fit 64
      bits, or there is no size, no chunk is counted. */
  lemma StatusExact(s: State, uploadId: UUID, userId: UUID, chunkSize: int)
    requires chunkSize <= MAX_INT64
    requires uploadId in s.sessions ==> MIN_INT64 <= s.sessions[uploadId].size <= MAX_INT64
    ensures var n, r := if chunkSize <= 0 then 102400 else chunkSize, Status(s, uploadId, userId, chunkSize);
      if uploadId !in s.sessions then r == Err(InvalidUpload)
      else
        var upload := s.sessions[uploadId];
        var counted := upload.size > 0 && upload.size + n - 1 <= MAX_INT64;
        if upload.owner != userId then r == Err(Unauthorized)
        else if counted && upload.size > 10000 * n then r == Err(TooManyChunks)
        else
          && r.Ok? && r.value.upload == upload && r.value.chunkSize == n
          && (if counted then (r.value.totalChunks - 1) * n < upload.size <= r.value.totalChunks * n
              else r.value.totalChunks <= 0)
          && (forall v :: v in r.value.missing <==> 0 <= v < r.value.totalChunks && v !in upload.chunksDone)
          && (forall i, j :: 0 <= i < j < |r.value.missing| ==> r.value.missing[i] < r.value.missing[j])
  {
    hide RoundedUp, Missing, Sorted;
    if uploadId in s.sessions {
      var size, n := s.sessions[uploadId].size, EffectiveChunkSize(chunkSize);
      var total := TotalChunks(size, chunkSize);
      MissingExact(s.sessions[uploadId].chunksDone, 0, total);
      SortedDistinct(Missing(s.sessions[uploadId].chunksDone, 0, total));
      CountedChunks(size, n);
      AtMost(size, total, n);
    }
  }

  lemma CountedChunks(size: int, n: int)
    requires MIN_INT64 <= size <= MAX_INT64 && 0 < n <= MAX_INT64
    ensures var total := RoundedUp(size, n);
      if size > 0 && size + n - 1 <= MAX_INT64 then (total - 1) * n < size <= total * n else total <= 0
  {
    if size > 0 {
      hide RoundedUp;
      RoundsUpIff(size, n);
    } else if size + n - 1 < 0 {
      QuotientNegative(size + n - 1, n);
    } else {
      BelowOne(size + n - 1, n);
    }
  }

  lemma BelowOne(a: int, n: int)
    requires 0 <= a < n
    ensures a / n == 0
  {
  }

  lemma AtMost(size: int, total: int, n: int)
    requires n > 0
    ensures (total - 1) * n < size <= total * n ==> (total > 10000 <==> size > 10000 * n)
  {
    if total > 10000 {
      Times(10000, total - 1, n);
    } else {
      Times(total, 10000, n);
    }
  }

  lemma Times(a: int, b: int, n: int)
    requires a <= b && n > 0
    ensures a * n <= b * n
  {
  }

  lemma {:induction false} SortedDistinct(xs: seq<int>)
    requires Sorted(xs) && Distinct(xs)
    ensures forall i, j :: 0 <= i < j < |xs| ==> xs[i] < xs[j]
    decreases |xs|
  {
    if xs != [] {
      SortedDistinct(xs[1..]);
      forall i, j | 0 <= i < j < |xs| ensures xs[i] < xs[j] {
        if i == 0 {
          assert xs[j] == xs[1..][j - 1] && xs[1..][j - 1] in xs[1..];
          assert xs[0] <= xs[j] && xs[0] != xs[j];
        } else {
          assert xs[i] == xs[1..][i - 1] && xs[j] == xs[1..][j - 1];
        }
      }
    }
  }

  /** When Status has nothing missing and no recorded index lies outside the count, Complete
      assembles the chunks 0 to count-1. */
  lemma NothingMissing(s: State, uploadId: UUID, userId: UUID, chunkSize: int)
    requires Status(s, uploadId, userId, chunkSize).Ok?
    requires uploadId in s.sessions && Distinct(s.sessions[uploadId].chunksDone)
    requires forall i :: i in s.sessions[uploadId].chunksDone ==>
      0 <= i < Status(s, uploadId, userId, chunkSize).value.totalChunks
    ensures var status := Status(s, uploadId, userId, chunkSize).value;
      var done := s.sessions[uploadId].chunksDone;
      status.missing == [] <==> (status.totalChunks <= 0 || Sort(done) == Range(status.totalChunks))
  {
    hide TotalChunks;
    var status := Status(s, uploadId, userId, chunkSize).value;
    var done, total := s.sessions[uploadId].chunksDone, status.totalChunks;
    MissingExact(done, 0, total);
    if total > 0 {
      if status.missing == [] {
        forall v ensures v in done <==> 0 <= v < total {
          assert v !in status.missing;
        }
        SortRange(done, total);
      }
      if Sort(done) == Range(total) {
        SortSorts(done);
        forall v | 0 <= v < total ensures v in done {
          assert Range(total)[v] == v;
          assert v in multiset(Sort(done));
        }
      }
    }
  }
}
