/** Which buckets the service accepts, and when what was stored in them can be read again. */
module Buckets {
  import opened Wrappers
  import opened Text
  import opened Paths
  import opened Store
  import opened BlobModel
  import Integrity

  // ---------- texts within texts ----------

  /** A part of a joined text occurs in it. */
  lemma {:induction false} JoinContains(parts: seq<string>, sep: char, k: nat) returns (a: string, b: string)
    requires k < |parts|
    ensures Join(parts, sep) == a + parts[k] + b
    decreases k
  {
    if k == 0 {
      a := "";
      b := if |parts| == 1 then "" else [sep] + Join(parts[1..], sep);
    } else {
      a, b := JoinContains(parts[1..], sep, k - 1);
      a := parts[0] + [sep] + a;
    }
  }

  lemma {:induction false} TrimLeftContains(s: string)
    requires Contains(s, "..")
    ensures Contains(TrimLeft(s), "..")
    decreases |s|
  {
    if s != "" && IsSpace(s[0]) {
      assert ".." <= s ==> s[0] == '.';
      TrimLeftContains(s[1..]);
    }
  }

  lemma {:induction false} DropLastContains(s: string)
    requires s != "" && IsSpace(s[|s| - 1]) && Contains(s, "..")
    ensures Contains(s[..|s| - 1], "..")
    decreases |s|
  {
    var front := s[..|s| - 1];
    if ".." <= s {
      assert s[0] == '.' && s[1] == '.';
      assert ".." <= front;
    } else {
      DropLastContains(s[1..]);
      assert s[1..][..|s[1..]| - 1] == front[1..];
    }
  }

  lemma {:induction false} TrimRightContains(s: string)
    requires Contains(s, "..")
    ensures Contains(TrimRight(s), "..")
    decreases |s|
  {
    if s != "" && IsSpace(s[|s| - 1]) {
      DropLastContains(s);
      TrimRightContains(s[..|s| - 1]);
    }
  }

  lemma {:induction false} TrimRightKeepsFirst(s: string)
    requires s != "" && !IsSpace(s[0])
    ensures TrimRight(s) != "" && TrimRight(s)[0] == s[0]
    decreases |s|
  {
    if IsSpace(s[|s| - 1]) {
      TrimRightKeepsFirst(s[..|s| - 1]);
    }
  }

  /** A core that does not start with a slash, and holds no backslash, no `..` and no `//`. */
  ghost predicate PlainName(core: string) {
    && core != "" && core[0] != '/' && !IsSpace(core[0]) && !IsSpace(core[|core| - 1]) && '\\' !in core
    && (forall a: string, b: string :: core != a + ".." + b)
    && (forall a: string, b: string :: core != a + "//" + b)
  }

  /** What validateBucketName accepts: such a core, between blanks or not. */
  lemma ValidatedIff(bucket: string)
    ensures ValidBucketName(bucket) <==>
      exists a: string, core: string, b: string :: Surrounds(bucket, a, core, b) && PlainName(core)
  {
    hide TrimSpace, Contains;
    var core := TrimSpace(bucket);
    var a, b := TrimExact(bucket);
    ContainsIff(core, "..");
    ContainsIff(core, "//");
    if ValidBucketName(bucket) {
      assert Surrounds(bucket, a, core, b) && PlainName(core);
    }
    if x: string, c: string, y: string :| Surrounds(bucket, x, c, y) && PlainName(c) {
      TrimBetween(x, c, y);
    }
  }

  /** The service's check rules out absolute buckets and buckets with a `..` segment, although
      it looks at the trimmed text and the driver at the text itself. */
  lemma ValidatedBucket(bucket: string)
    requires ValidBucketName(bucket)
    ensures !IsAbs(bucket) && ".." !in Split(bucket, '/')
  {
    if IsAbs(bucket) {
      TrimRightKeepsFirst(bucket);
    }
    var parts := Split(bucket, '/');
    if ".." in parts {
      var k :| 0 <= k < |parts| && parts[k] == "..";
      var a, b := JoinContains(parts, '/', k);
      ContainsAt(a, "..", b);
      TrimLeftContains(bucket);
      TrimRightContains(TrimLeft(bucket));
    }
  }

  /** So the driver accepts a validated bucket exactly when it has a segment that is neither
      empty nor a dot. */
  lemma ValidatedBucketAccepted(bucket: string)
    requires ValidBucketName(bucket)
    ensures ValidComponent(bucket) <==> exists i :: 0 <= i < |Split(bucket, '/')| && Plain(Split(bucket, '/')[i])
  {
    hide Split, ValidBucketName, ValidComponent;
    ValidatedBucket(bucket);
    AcceptedSegments(bucket);
    FoldNeverClimbs([], Split(bucket, '/'));
    FoldKeepsPlain([], Split(bucket, '/'));
  }

  /** An upload that succeeded and kept its own object can be found and read again if and only
      if the bucket's first segment is kept; otherwise every later access to the row fails. */
  lemma UploadReadableIff(cfg: Config, s: State, input: UploadInput, id: UUID, now: int, pick: Option<UUID>)
    requires (pick.Some? ==> pick.value in s.rows) && (cfg.dedup ==> pick.None?)
    requires Upload(cfg, s, input, id, now, pick).result.Ok?
    ensures var r := Upload(cfg, s, input, id, now, pick);
      && (ExistsAt(r.state.tree, r.result.value.path) <==> FirstSegmentKept(input.bucket))
      && OpenFile(r.state, id) == (if FirstSegmentKept(input.bucket)
                                   then Ok((r.result.value, input.content, |input.content|)) else Err(StorageFailed))
  {
    hide Locate, ValidComponent, FirstSegmentKept, ValidBucketName, BucketKey, Upload, OpenFile, ExistsAt;
    var r := Upload(cfg, s, input, id, now, pick);
    UploadPlaced(cfg, s, input, id, now, pick);
    ValidatedBucket(input.bucket);
    StoredPathReachable(input.bucket, id);
    ReadThrough(r.state, id);
  }

  /** When it is not kept, the row can never be deleted or purged either. */
  lemma UnreadableStays(cfg: Config, s: State, input: UploadInput, id: UUID, now: int, pick: Option<UUID>)
    requires (pick.Some? ==> pick.value in s.rows) && (cfg.dedup ==> pick.None?)
    requires Upload(cfg, s, input, id, now, pick).result.Ok? && !FirstSegmentKept(input.bucket)
    requires forall x :: x in s.rows ==> s.rows[x].path != input.bucket + "/" + id
    ensures var r := Upload(cfg, s, input, id, now, pick).state;
      && DeleteBlob(r, id) == Reply(r, Err(StorageFailed))
      && forall removed :: PurgeOne(Purged(r, removed), id, r.rows[id].path) == Purged(r, removed)
  {
    hide Locate, LocatePath, ValidComponent, FirstSegmentKept, ValidBucketName, Upload, DeleteBlob, PurgeOne, Split;
    var r := Upload(cfg, s, input, id, now, pick).state;
    UploadPlaced(cfg, s, input, id, now, pick);
    ValidatedBucket(input.bucket);
    StoredPathReachable(input.bucket, id);
    Integrity.UploadAnswer(cfg, s, input, id, now, pick);
    forall removed: nat ensures PurgeOne(Purged(r, removed), id, r.rows[id].path) == Purged(r, removed) {
      Integrity.UnreachableStays(r, id, removed);
    }
    Integrity.UnreachableStays(r, id, 0);
  }

  /** What a successful upload without reuse leaves, in any tree. */
  lemma UploadPlaced(cfg: Config, s: State, input: UploadInput, id: UUID, now: int, pick: Option<UUID>)
    requires (pick.Some? ==> pick.value in s.rows) && (cfg.dedup ==> pick.None?)
    requires Upload(cfg, s, input, id, now, pick).result.Ok?
    ensures var r, at := Upload(cfg, s, input, id, now, pick), Locate(input.bucket, id);
      && ValidBucketName(input.bucket) && ValidComponent(input.bucket)
      && at.Some? && at.value in r.state.tree.files && r.state.tree.files[at.value] == input.content
      && id in r.state.rows && r.state.rows[id] == r.result.value && r.result.value.path == input.bucket + "/" + id
  {
    hide ValidBucketName, EnsureBucket, ValidComponent;
  }

  /** Reading a row is reading the place its stored path leads to. */
  lemma ReadThrough(s: State, id: UUID)
    requires id in s.rows
    ensures var at := LocatePath(s.rows[id].path);
      && (at.None? ==> OpenFile(s, id) == Err(StorageFailed) && !ExistsAt(s.tree, s.rows[id].path))
      && (at.Some? && at.value !in s.tree.files ==> OpenFile(s, id) == Err(StorageFailed))
      && (at.Some? && at.value in s.tree.files ==>
            var content := s.tree.files[at.value];
            OpenFile(s, id) == Ok((s.rows[id], content, |content|)) && ExistsAt(s.tree, s.rows[id].path))
  {
    hide Locate;
  }
}
