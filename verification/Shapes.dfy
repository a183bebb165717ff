/** Where blobs and chunks live in the tree, and what the driver operations do to
    objects of these two kinds. */
module Shapes {
  import opened Wrappers
  import opened Text
  import opened Decimal
  import opened Paths
  import opened Trees
  import opened Store
  import opened MultipartModel

  predicate IsTemp(p: Path) {
    p != [] && p[0] == CHUNK_BUCKET
  }

  /** tmp/session/name, or the segments of a bucket followed by an id. */
  ghost predicate ObjectShape(f: Path) {
    |f| >= 2 && if IsTemp(f) then |f| == 3 && IsUuid(f[1]) else IsUuid(Last(f))
  }

  ghost predicate DirShape(d: Path) {
    IsTemp(d) ==> |d| <= 2
  }

  /** A well-formed tree that holds only such objects. */
  ghost predicate Shaped(t: Tree) {
    && Valid(t)
    && (forall f :: f in t.files ==> ObjectShape(f))
    && (forall d :: d in t.dirs ==> DirShape(d))
  }

  /** The objects outside the temporary namespace. */
  function Blobs(t: Tree): (r: map<Path, Bytes>) {
    map f | f in t.files && !IsTemp(f) :: t.files[f]
  }

  /** The objects inside the temporary namespace. */
  function Temps(t: Tree): (r: map<Path, Bytes>) {
    map f | f in t.files && IsTemp(f) :: t.files[f]
  }

  /** A bucket without `..` that is readable and does not lie in the chunk namespace. */
  ghost predicate PlainBucket(bucket: string) {
    && Readable(bucket) && ".." !in Split(bucket, '/')
    && Segments(bucket) != [] && Segments(bucket)[0] != CHUNK_BUCKET
  }

  /** In particular, any bucket written the way it is stored. */
  lemma CanonicalIsPlain(bucket: string)
    requires CanonicalBucket(bucket) && Split(bucket, '/')[0] != CHUNK_BUCKET
    ensures PlainBucket(bucket) && Segments(bucket) == Split(bucket, '/')
  {
    hide Split, ValidComponent, Fold, FirstSegmentKept;
    PlainSegments(bucket);
    var i := IndexOf(bucket, '/');
    if i < 0 {
      SplitNone(bucket, '/');
      LoneSegmentKept(bucket);
    } else {
      var first, rest := bucket[..i], bucket[i + 1..];
      assert bucket == first + "/" + rest;
      SplitTwo(first, rest);
      assert Plain(Split(bucket, '/')[0]) && Plain(Split(bucket, '/')[1]);
      RestStarts(rest);
      KeptIff(first, rest);
    }
  }

  lemma LoneSegmentKept(bucket: string)
    requires '/' !in bucket && Plain(bucket)
    ensures FirstSegmentKept(bucket)
  {
  }

  lemma RestStarts(rest: string)
    requires Plain(Split(rest, '/')[0])
    ensures rest != "" && rest[0] != '/'
  {
  }

  /** A bucket that runs through an object, or ends at one: no object can be put in it. */
  predicate Blocked(t: Tree, bucket: string) {
    exists f :: f in t.files && f <= Segments(bucket)
  }

  function BlobObject(bucket: string, id: UUID): Path {
    Segments(bucket) + [id]
  }

  function ChunkObject(id: UUID, index: int): Path {
    [CHUNK_BUCKET, id, "chunk_" + Print(index)]
  }

  function FinalObject(id: UUID): Path {
    [CHUNK_BUCKET, id, "final"]
  }

  lemma BlobObjectShape(bucket: string, id: UUID)
    requires PlainBucket(bucket)
    ensures ObjectShape(BlobObject(bucket, id)) && !IsTemp(BlobObject(bucket, id))
    ensures Last(BlobObject(bucket, id)) == id
    ensures Locate(bucket, id) == Some(BlobObject(bucket, id))
    ensures Segments(bucket + "/" + id) == BlobObject(bucket, id)
    ensures LocatePath(bucket + "/" + id) == Some(BlobObject(bucket, id))
  {
    hide Fold, ValidComponent, Segments, LocatePath, FirstSegmentKept, Split, IsUuid;
    UuidIs(id);
    NotAbsolute(bucket);
    StoredPathLeads(bucket, id);
    StoredLocation(bucket, id);
    assert BlobObject(bucket, id)[0] == Segments(bucket)[0];
  }

  lemma UuidIs(id: UUID)
    ensures IsUuid(id)
  {
  }

  lemma TempObject(id: UUID, name: string)
    requires Plain(name)
    ensures Locate(CHUNK_BUCKET, id + "/" + name) == Some([CHUNK_BUCKET, id, name])
    ensures ObjectShape([CHUNK_BUCKET, id, name]) && IsTemp([CHUNK_BUCKET, id, name])
  {
    UuidPlain(id);
    SingleSegment(CHUNK_BUCKET);
    SplitTwo(id, name);
    SplitNone(name, '/');
    assert Split(id + "/" + name, '/') == [id, name];
    PlainSegments(id + "/" + name);
    assert [CHUNK_BUCKET] + [id, name] == [CHUNK_BUCKET, id, name];
  }

  lemma ChunkLocation(id: UUID, index: int)
    ensures Locate(CHUNK_BUCKET, ChunkKey(id, index)) == Some(ChunkObject(id, index))
    ensures ObjectShape(ChunkObject(id, index)) && IsTemp(ChunkObject(id, index))
  {
    var name := "chunk_" + Print(index);
    assert name[0] == 'c';
    assert '/' !in Print(index);
    assert Plain(name);
    TempObject(id, name);
  }

  lemma FinalLocation(id: UUID)
    ensures Locate(CHUNK_BUCKET, FinalKey(id)) == Some(FinalObject(id))
    ensures ObjectShape(FinalObject(id)) && IsTemp(FinalObject(id))
  {
    TempObject(id, "final");
  }

  lemma SessionLocation(id: UUID)
    ensures Locate(CHUNK_BUCKET, id) == Some([CHUNK_BUCKET, id])
  {
    UuidPlain(id);
    SingleSegment(CHUNK_BUCKET);
    assert [CHUNK_BUCKET] + [id] == [CHUNK_BUCKET, id];
  }

  /** Different indices, and the assembled file, never share an object. */
  lemma ChunksDistinct(id: UUID, i: int, j: int)
    ensures ChunkObject(id, i) != FinalObject(id)
    ensures i != j ==> ChunkObject(id, i) != ChunkObject(id, j)
  {
    var a, b := "chunk_" + Print(i), "chunk_" + Print(j);
    assert a[0] == 'c';
    assert ChunkObject(id, i)[2] == a && ChunkObject(id, j)[2] == b && FinalObject(id)[2] == "final";
    if a == b {
      assert Print(i) == a[6..] == b[6..] == Print(j);
      PrintInjective(i, j);
    }
  }

  // ---------- the operations on shaped trees ----------

  /** Nothing ever lies in the way of a temporary object. */
  lemma TempFree(t: Tree, f: Path)
    requires Shaped(t) && ObjectShape(f) && IsTemp(f)
    ensures Free(t, f)
  {
    hide IsUuid, Valid;
    forall g | g in t.files ensures !(g < f) {
      assert ObjectShape(g);
    }
    assert f in t.dirs ==> DirShape(f);
  }

  /** The directories outside the temporary namespace are the same. */
  ghost predicate SamePlaces(t: Tree, u: Tree) {
    forall d :: !IsTemp(d) ==> (d in t.dirs <==> d in u.dirs)
  }

  lemma PlacesFree(t: Tree, u: Tree, p: Path)
    requires Shaped(t) && Shaped(u) && SamePlaces(t, u) && Blobs(t) == Blobs(u) && p != [] && !IsTemp(p)
    ensures Free(t, p) <==> Free(u, p)
  {
    PlacesStayFree(t, u, p);
    PlacesStayFree(u, t, p);
  }

  lemma PlacesStayFree(t: Tree, u: Tree, p: Path)
    requires Shaped(u) && SamePlaces(t, u) && Blobs(t) == Blobs(u) && p != [] && !IsTemp(p)
    ensures Free(t, p) ==> Free(u, p)
  {
    if Free(t, p) {
      forall f | f in u.files ensures !(f < p) {
        BeforePlain(f, p);
        assert !IsTemp(f) ==> f in Blobs(u);
      }
    }
  }

  lemma BeforePlain(f: Path, p: Path)
    requires !IsTemp(p)
    ensures f < p ==> !IsTemp(f)
  {
    assert f < p && f != [] ==> f[0] == p[0];
  }

  /** Deleting a temporary object takes away temporary directories at most. */
  lemma RemoveTempPlaces(t: Tree, f: Path)
    requires Shaped(t) && ObjectShape(f) && IsTemp(f)
    ensures SamePlaces(t, Remove(t, f).tree)
  {
    hide Prune, ObjectShape;
    TempFree(t, f);
    UnlinkEffect(t, f);
    var gone := Unlink(t, f).tree;
    assert gone.dirs == t.dirs;
    PruneEffect(gone, Parent(f), |f| - 1);
    forall d | d in t.dirs && !IsTemp(d) ensures d in Prune(gone, Parent(f), |f| - 1).dirs {
      if d !in Prune(gone, Parent(f), |f| - 1).dirs {
        PruneOnlyEmpty(gone, Parent(f), |f| - 1, d);
        OnTheWay(d, f);
      }
    }
  }

  lemma OnTheWay(d: Path, f: Path)
    requires d != [] && f != [] && d <= Parent(f) && IsTemp(f)
    ensures IsTemp(d)
  {
    assert d[0] == Parent(f)[0] == f[0];
  }

  lemma WriteTempPlaces(t: Tree, f: Path, content: Bytes)
    requires Shaped(t) && ObjectShape(f) && IsTemp(f)
    ensures SamePlaces(t, Write(t, f, content).tree)
  {
    hide Write, ObjectShape;
    TempFree(t, f);
    WriteShaped(t, f, content);
    forall d | d in Ancestors(f) && d != [] ensures IsTemp(d) {
      assert d[0] == f[0];
    }
  }

  lemma AncestorShape(f: Path, d: Path)
    requires ObjectShape(f) && d < f
    ensures DirShape(d)
  {
    assert d != [] ==> d[0] == f[0];
  }

  lemma WriteShaped(t: Tree, f: Path, content: Bytes)
    requires Shaped(t) && ObjectShape(f) && Free(t, f)
    ensures var done := Write(t, f, content);
      && done.error == None && Shaped(done.tree) && done.tree.files == t.files[f := content]
      && done.tree.dirs == t.dirs + Ancestors(f)
      && Blobs(done.tree) == (if IsTemp(f) then Blobs(t) else Blobs(t)[f := content])
      && Temps(done.tree) == (if IsTemp(f) then Temps(t)[f := content] else Temps(t))
  {
    hide Write, IsUuid, Valid;
    ShapedValid(t);
    WriteEffect(t, f, content);
    forall d | d in Ancestors(f) ensures DirShape(d) {
      AncestorShape(f, d);
    }
  }

  lemma ShapedValid(t: Tree)
    requires Shaped(t)
    ensures Valid(t)
  {
    hide Valid;
  }

  lemma RemoveShaped(t: Tree, f: Path)
    requires Shaped(t) && ObjectShape(f) && Free(t, f)
    ensures var done := Remove(t, f);
      && done.error == None && Shaped(done.tree)
      && done.tree.files == t.files - {f} && done.tree.dirs <= t.dirs
      && Blobs(done.tree) == Blobs(t) - {f}
      && Temps(done.tree) == Temps(t) - {f}
  {
    hide Remove;
    RemoveEffect(t, f);
  }

  /** Moving where no directory would be moved. */
  lemma RenameShaped(t: Tree, src: Path, dst: Path)
    requires Shaped(t) && ObjectShape(src) && ObjectShape(dst)
    requires !(Free(t, dst) && MovesDirectory(t, src, dst))
    ensures var done := Rename(t, src, dst);
      && Shaped(done.tree) && (done.error.None? <==> Free(t, dst) && src in t.files)
      && done.tree.files == (if done.error.None? then (t.files - {src})[dst := t.files[src]] else t.files)
      && (src in t.files && !Free(t, dst) ==> done.tree == t)
  {
    hide Rename;
    RenameEffect(t, src, dst);
    forall d | d in Ancestors(dst) ensures DirShape(d) {
      AncestorShape(dst, d);
    }
    var done := Rename(t, src, dst);
    forall f | f in done.tree.files ensures ObjectShape(f) {
      assert f == dst || f in t.files;
    }
  }

  /** Moving between places outside the temporary namespace. */
  lemma RenameBlob(t: Tree, src: Path, dst: Path)
    requires Shaped(t) && ObjectShape(src) && ObjectShape(dst) && !IsTemp(src) && !IsTemp(dst)
    requires !(Free(t, dst) && MovesDirectory(t, src, dst))
    ensures var done := Rename(t, src, dst);
      && (done.error.None? <==> Free(t, dst) && src in Blobs(t))
      && Blobs(done.tree) == (if done.error.None? then MapMove(Blobs(t), src, dst) else Blobs(t))
      && Temps(done.tree) == Temps(t)
  {
    hide Rename, Shaped, ObjectShape, Free, MovesDirectory;
    RenameShaped(t, src, dst);
  }

  function MapMove(m: map<Path, Bytes>, src: Path, dst: Path): map<Path, Bytes>
    requires src in m
  {
    (m - {src})[dst := m[src]]
  }

  lemma MoveOntoItself(m: map<Path, Bytes>, src: Path)
    requires src in m
    ensures MapMove(m, src, src) == m
  {
  }

  /** Removing a session's tree takes its temporary objects and nothing else. */
  lemma RemoveSessionTree(t: Tree, id: UUID)
    requires Shaped(t)
    ensures var after := RemoveTree(t, CHUNK_BUCKET, id).tree;
      && Shaped(after)
      && after.files == (map f | f in t.files && !(IsTemp(f) && f[1] == id) :: t.files[f])
      && Blobs(after) == Blobs(t)
  {
    SessionLocation(id);
    var p := [CHUNK_BUCKET, id];
    RemoveAllEffect(t, p);
    forall f | f in t.files ensures p <= f <==> IsTemp(f) && f[1] == id {
      assert ObjectShape(f);
      assert p <= f <==> f[0] == p[0] && f[1] == p[1];
    }
  }

  /** Creating a plain bucket, or the chunk namespace, moves no object. It fails, and changes
      nothing, exactly when the bucket runs through an object. */
  lemma EnsureShaped(mode: BucketCreation, t: Tree, bucket: string)
    requires Shaped(t) && (PlainBucket(bucket) || bucket == CHUNK_BUCKET)
    ensures var done := EnsureBucket(mode, t, bucket);
      && Shaped(done.tree) && done.tree.files == t.files
      && (done.error.None? <==> mode == AsPromised && !Blocked(t, bucket))
      && (done.error.Some? ==> done.tree == t)
      && t.dirs <= done.tree.dirs
      && (forall d :: d in done.tree.dirs ==> d in t.dirs || d <= Segments(bucket))
  {
    hide IsUuid;
    if mode == AsWritten {
      EnsureBucketAlwaysFails(t, bucket);
    } else {
      BucketSegments(bucket);
      var segs := Segments(bucket);
      var p := segs + [""];
      MakeParentsValid(t, p);
      forall d ensures d in Ancestors(p) <==> d <= segs {
        PrefixOfExtension(d, segs, "");
      }
      forall f | f in t.files ensures f < p <==> f <= segs {
        PrefixOfExtension(f, segs, "");
      }
      forall d | d in Ancestors(p) ensures DirShape(d) {
        assert d != [] ==> d[0] == segs[0];
      }
    }
  }

  lemma PrefixOfExtension(d: Path, p: Path, last: string)
    ensures d < p + [last] <==> d <= p
  {
    assert d < p + [last] ==> d == (p + [last])[..|d|] == p[..|d|];
  }

  lemma BucketSegments(bucket: string)
    requires PlainBucket(bucket) || bucket == CHUNK_BUCKET
    ensures ValidComponent(bucket) && Segments(bucket) != []
    ensures bucket == CHUNK_BUCKET ==> Segments(bucket) == [CHUNK_BUCKET]
  {
    if bucket == CHUNK_BUCKET {
      SingleSegment(CHUNK_BUCKET);
    }
  }

  lemma ChunkNamespaceOpen(t: Tree)
    requires Shaped(t)
    ensures !Blocked(t, CHUNK_BUCKET)
  {
    BucketSegments(CHUNK_BUCKET);
  }

  /** A bucket without a segment in the form of a UUID never runs through an object. */
  lemma OrdinaryBucketOpen(t: Tree, bucket: string)
    requires Shaped(t) && PlainBucket(bucket)
    requires forall i :: 0 <= i < |Segments(bucket)| ==> !IsUuid(Segments(bucket)[i])
    ensures !Blocked(t, bucket)
  {
    forall f | f in t.files ensures !(f <= Segments(bucket)) {
      assert ObjectShape(f);
    }
  }

  /** The way to an object of a bucket leads through the bucket. */
  lemma WayToObject(t: Tree, bucket: string, id: UUID)
    ensures ThroughFile(t, BlobObject(bucket, id)) <==> Blocked(t, bucket)
    ensures forall d :: d in Ancestors(BlobObject(bucket, id)) <==> d <= Segments(bucket)
  {
    hide Segments;
    forall d ensures d in Ancestors(BlobObject(bucket, id)) <==> d <= Segments(bucket) {
      PrefixOfExtension(d, Segments(bucket), id);
    }
    forall f | f in t.files ensures f < BlobObject(bucket, id) <==> f <= Segments(bucket) {
      PrefixOfExtension(f, Segments(bucket), id);
    }
  }
}
