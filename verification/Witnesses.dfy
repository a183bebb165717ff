/** Concrete runs in which a bucket runs through the place of a row, and what goes wrong then:
    the inputs behind the conditions on edits, on uploads after a crash, and on the comparison of
    a deduplicating store with a plain one. */
module Witnesses {
  import opened Wrappers
  import opened Text
  import opened Paths
  import opened Trees
  import opened Store
  import opened BlobModel
  import opened MultipartModel
  import opened Shapes
  import opened Integrity
  import opened Expiry
  import opened Buckets
  import opened Runs
  import opened Dedup
  import opened MultipartIntegrity
  import opened UploadCap
  import opened Assembly
  import opened RoundTrip

  // ---------- the buckets ----------

  lemma {:induction false} NotContained(s: string, part: string)
    requires part != "" && part[0] !in s
    ensures !Contains(s, part)
    decreases |s|
  {
    if s != "" {
      assert part[0] !in s[1..];
      NotContained(s[1..], part);
    }
  }

  /** Letters, digits, slash, underscore and hyphen: what the upload form lets a bucket hold. */
  predicate BucketChar(c: char) {
    'a' <= c <= 'z' || 'A' <= c <= 'Z' || '0' <= c <= '9' || c == '/' || c == '_' || c == '-'
  }

  lemma BucketText(s: string)
    requires s != "" && s[0] != '/' && (forall i :: 0 <= i < |s| ==> BucketChar(s[i])) && !Contains(s, "//")
    ensures ValidBucketName(s)
  {
    hide Contains;
    NothingTrimmed(s);
    NotContained(s, "..");
  }

  lemma NothingTrimmed(s: string)
    requires s != "" && forall i :: 0 <= i < |s| ==> BucketChar(s[i])
    ensures TrimSpace(s) == s
  {
    assert !IsSpace(s[0]) && !IsSpace(s[|s| - 1]);
  }

  lemma FlatBucket(name: string)
    requires name == "b" || name == "c"
    ensures ValidBucketName(name) && PlainBucket(name) && Segments(name) == [name]
  {
    NotContained(name, "//");
    BucketText(name);
    SplitNone(name, '/');
    CanonicalIsPlain(name);
  }

  function Through(id: UUID): string {
    "b/" + id
  }

  lemma UuidText(id: UUID)
    ensures '/' !in id && id != "" && forall i :: 0 <= i < |id| ==> BucketChar(id[i])
    ensures forall i :: 0 <= i < |id| ==> id[i] in "0123456789abcdef-"
  {
    assert forall i :: 0 <= i < 36 ==> id[i] == '-' || IsHexDigit(id[i]);
  }

  lemma NoDoubleSlash(id: string)
    requires id != "" && '/' !in id
    ensures !Contains("b/" + id, "//")
  {
    var s := "b/" + id;
    NotContained(id, "//");
    assert s[1..] == "/" + id && s[1..][1..] == id;
    assert !("//" <= s[1..]) by {
      assert s[1..][1] == id[0];
    }
    assert !("//" <= s);
  }

  lemma ThroughBucket(id: UUID)
    ensures ValidBucketName(Through(id)) && PlainBucket(Through(id)) && Segments(Through(id)) == ["b", id]
  {
    hide ValidBucketName, Split, IsUuid, Contains, Segments, PlainBucket;
    UuidPlain(id);
    UuidText(id);
    NoDoubleSlash(id);
    BucketText(Through(id));
    assert Through(id) == "b" + ['/'] + id;
    SplitAround("b", id, '/');
    SplitNone("b", '/');
    CanonicalIsPlain(Through(id));
  }

  // ---------- the first two uploads ----------

  function Settings(sha: Bytes -> string, dedup: bool): Config {
    Config(sha, dedup, 0, 0, 0, AsPromised)
  }

  function ToBucket(bucket: string, content: Bytes): UploadInput {
    UploadInput(bucket, "", content, None)
  }

  lemma EmptyFacts(sha: Bytes -> string, id: UUID)
    ensures Inv(sha, EMPTY) && FreshId(EMPTY, id) && Temps(EMPTY.tree) == map[]
  {
    EmptyInv(sha);
  }

  lemma OpenBucketAccepted(cfg: Config, s: State, bucket: string)
    requires ValidBucketName(bucket) && cfg.ensure == AsPromised
    requires PlainBucket(bucket) && forall f :: f in s.tree.files ==> !(f <= Segments(bucket))
    ensures Accepted(cfg, s, bucket)
  {
    hide Segments, ValidBucketName, ValidComponent;
  }

  /** An upload that keeps its own object. */
  lemma OwnUpload(cfg: Config, s: State, bucket: string, segs: Path, id: UUID, x: Bytes,
      pick: Option<UUID>) returns (r: Reply<Blob>)
    requires Inv(cfg.sha, s) && PlainBucket(bucket) && Segments(bucket) == segs && FreshId(s, id)
    requires Temps(s.tree) == map[]
    requires Accepted(cfg, s, bucket) && LatestWithHash(s.rows, cfg.sha(x), pick) && (cfg.dedup ==> pick.None?)
    ensures r == Upload(cfg, s, ToBucket(bucket, x), id, 0, pick)
    ensures r.result == Ok(Blob(bucket, "", |x|, cfg.sha(x), bucket + "/" + id, None, 0))
    ensures r.state.rows == s.rows[id := r.result.value] && r.state.sessions == s.sessions && Inv(cfg.sha, r.state)
    ensures r.state.tree.files == s.tree.files[segs + [id] := x]
    ensures r.state.tree.dirs == s.tree.dirs + Ancestors(segs + [id])
    ensures Temps(r.state.tree) == map[]
  {
    hide Upload, Accepted, InvExcept, FreshId, PlainBucket, Segments, Blobs, Temps;
    r := Upload(cfg, s, ToBucket(bucket, x), id, 0, pick);
    UploadInOrder(cfg, s, ToBucket(bucket, x), id, 0, pick);
    UploadStep(cfg, s, ToBucket(bucket, x), id, 0, pick);
    assert BlobObject(bucket, id) == segs + [id];
    FilesAre(s.tree, Blobs(s.tree));
    FilesAre(r.state.tree, Blobs(s.tree)[segs + [id] := x]);
  }

  /** An upload that deduplication turns into another pointer. */
  lemma SharedUpload(cfg: Config, s: State, bucket: string, id: UUID, x: Bytes, pick: UUID) returns (r: Reply<Blob>)
    requires Inv(cfg.sha, s) && PlainBucket(bucket) && FreshId(s, id) && Temps(s.tree) == map[] && cfg.dedup
    requires Accepted(cfg, s, bucket) && LatestWithHash(s.rows, cfg.sha(x), Some(pick))
    ensures r == Upload(cfg, s, ToBucket(bucket, x), id, 0, Some(pick))
    ensures r.result == Ok(Blob(bucket, "", s.rows[pick].size, cfg.sha(x), s.rows[pick].path, None, 0))
    ensures r.state.rows == s.rows[id := r.result.value] && r.state.sessions == s.sessions && Inv(cfg.sha, r.state)
    ensures r.state.tree.files == s.tree.files && r.state.tree.dirs <= s.tree.dirs && Temps(r.state.tree) == map[]
  {
    hide Upload, Accepted, InvExcept, FreshId, PlainBucket, Blobs, Temps;
    r := Upload(cfg, s, ToBucket(bucket, x), id, 0, Some(pick));
    UploadInOrder(cfg, s, ToBucket(bucket, x), id, 0, Some(pick));
    UploadStep(cfg, s, ToBucket(bucket, x), id, 0, Some(pick));
    FilesAre(s.tree, Blobs(s.tree));
    FilesAre(r.state.tree, Blobs(s.tree));
  }

  lemma FilesAre(t: Tree, blobs: map<Path, Bytes>)
    requires Blobs(t) == blobs && Temps(t) == map[]
    ensures t.files == blobs
  {
    forall f | f in t.files ensures f in blobs && blobs[f] == t.files[f] {
      assert f in Blobs(t) || f in Temps(t);
    }
  }

  lemma WaysFrom(name: string, id: string)
    ensures Ancestors([name, id]) == {[], [name]}
    ensures forall last: string :: Ancestors([name, id, last]) == {[], [name], [name, id]}
  {
    assert [name, id][..0] == [] && [name, id][..1] == [name];
    forall last: string ensures Ancestors([name, id, last]) == {[], [name], [name, id]} {
      var p := [name, id, last];
      assert p[..0] == [] && p[..1] == [name] && p[..2] == [name, id];
    }
  }

  /** A store with one row, in bucket b. */
  lemma OneUpload(cfg: Config, id: UUID, x: Bytes) returns (s: State)
    requires cfg.ensure == AsPromised
    ensures LatestWithHash(EMPTY.rows, cfg.sha(x), None) && FreshId(EMPTY, id)
    ensures s == Upload(cfg, EMPTY, ToBucket("b", x), id, 0, None).state && Inv(cfg.sha, s) && Temps(s.tree) == map[]
    ensures Upload(cfg, EMPTY, ToBucket("b", x), id, 0, None).result == Ok(FlatRow(cfg, x, id))
    ensures s.rows == map[id := FlatRow(cfg, x, id)] && s.sessions == map[]
    ensures s.tree.files == map[["b", id] := x] && s.tree.dirs == {[], ["b"]}
  {
    hide Upload, Accepted, Inv, FreshId, PlainBucket, Segments, Temps, ValidBucketName;
    FlatBucket("b");
    EmptyFacts(cfg.sha, id);
    OpenBucketAccepted(cfg, EMPTY, "b");
    var r := OwnUpload(cfg, EMPTY, "b", ["b"], id, x, None);
    s := r.state;
    assert ["b"] + [id] == ["b", id];
    WaysFrom("b", id);
    assert "b" + "/" + id == "b/" + id;
  }

  /** Another UUID is fresh in a store whose rows all point at one object of bucket b. */
  lemma OtherFresh(s: State, id: UUID, other: UUID)
    requires id != other && s.sessions == map[] && other !in s.rows
    requires forall x :: x in s.rows ==> s.rows[x].path == "b/" + id
    requires (forall f :: f in s.tree.files ==> f == ["b", id]) && s.tree.dirs <= {[], ["b"]}
    ensures FreshId(s, other)
  {
    hide IsUuid, Segments;
    UuidLength(other);
    forall x | x in s.rows ensures Home(s.rows[x]) == ["b", id] {
      ThroughHome(s.rows[x], "b/" + id, id);
    }
  }

  lemma UuidLength(id: UUID)
    ensures |id| == 36
  {
  }

  lemma ThroughHome(row: Blob, path: string, id: UUID)
    requires row.path == path && path == "b/" + id
    ensures Home(row) == ["b", id]
  {
    hide ValidBucketName, PlainBucket;
    ThroughBucket(id);
    assert Through(id) == path;
  }

  /** An upload of the same content to the same bucket, deduplicated or not. */
  lemma TwoUploads(cfg: Config, u1: UUID, u2: UUID, x: Bytes) returns (s1: State, pick: Option<UUID>, s: State)
    requires cfg.ensure == AsPromised && u1 != u2
    ensures FreshId(EMPTY, u1) && LatestWithHash(EMPTY.rows, cfg.sha(x), None)
    ensures s1 == Upload(cfg, EMPTY, ToBucket("b", x), u1, 0, None).state && FreshId(s1, u2)
    ensures Upload(cfg, EMPTY, ToBucket("b", x), u1, 0, None).result == Ok(FlatRow(cfg, x, u1))
    ensures LatestWithHash(s1.rows, cfg.sha(x), pick)
    ensures s == Upload(cfg, s1, ToBucket("b", x), u2, 0, pick).state && Inv(cfg.sha, s) && Temps(s.tree) == map[]
    ensures Upload(cfg, s1, ToBucket("b", x), u2, 0, pick).result == Ok(FlatRow(cfg, x, if cfg.dedup then u1 else u2))
    ensures s.rows == map[u1 := FlatRow(cfg, x, u1), u2 := FlatRow(cfg, x, if cfg.dedup then u1 else u2)]
    ensures s.sessions == map[]
    ensures s.tree.files == (if cfg.dedup then map[["b", u1] := x] else map[["b", u1] := x, ["b", u2] := x])
    ensures s.tree.dirs <= {[], ["b"]}
  {
    hide Upload, Accepted, Inv, FreshId, PlainBucket, Segments, Temps, ValidBucketName;
    FlatBucket("b");
    s1 := OneUpload(cfg, u1, x);
    OtherFresh(s1, u1, u2);
    OpenBucketAccepted(cfg, s1, "b");
    if cfg.dedup {
      pick := Some(u1);
      var r := SharedUpload(cfg, s1, "b", u2, x, u1);
      s := r.state;
    } else {
      pick := Some(u1);
      var r := OwnUpload(cfg, s1, "b", ["b"], u2, x, Some(u1));
      s := r.state;
      assert ["b"] + [u2] == ["b", u2];
      WaysFrom("b", u2);
      assert "b" + "/" + u2 == "b/" + u2;
    }
  }

  function FlatRow(cfg: Config, x: Bytes, home: UUID): Blob {
    Blob("b", "", |x|, cfg.sha(x), "b/" + home, None, 0)
  }

  // ---------- an edit that moves a directory ----------

  lemma BesidePlace(u1: string, u2: string)
    requires u1 != u2
    ensures !(["b", u1] <= ["b", u2])
  {
    assert ["b", u1][1] == u1 && ["b", u2][1] == u2;
  }

  /** Two rows share an object, and a third row's bucket runs through the place of the second. */
  lemma ThroughBorrower(cfg: Config, u1: UUID, u2: UUID, u3: UUID, x: Bytes, y: Bytes)
      returns (actions: seq<Action>, s: State)
    requires cfg.dedup && cfg.ensure == AsPromised && u1 != u2 && u1 != u3 && u2 != u3 && cfg.sha(x) != cfg.sha(y)
    ensures Run(cfg, EMPTY, actions, s) && Inv(cfg.sha, s) && u2 in s.rows && u3 in s.rows
    ensures s.rows[u2] == FlatRow(cfg, x, u1) && s.rows[u3].path == "b/" + u2 + "/" + u3
    ensures s.tree.files == map[["b", u1] := x, ["b", u2, u3] := y]
    ensures s.tree.dirs <= {[], ["b"], ["b", u2]} && ["b", u2] in s.tree.dirs
  {
    hide Upload, Accepted, Inv, FreshId, PlainBucket, Segments, Temps, ValidBucketName;
    var s1, pick, s2 := TwoUploads(cfg, u1, u2, x);
    OtherFresh(s2, u1, u3);
    ThroughBucket(u2);
    BesidePlace(u1, u2);
    OpenBucketAccepted(cfg, s2, Through(u2));
    var r := OwnUpload(cfg, s2, Through(u2), ["b", u2], u3, y, None);
    s := r.state;
    assert ["b", u2] + [u3] == ["b", u2, u3];
    WaysFrom("b", u2);
    FlatBucket("b");
    actions := [UploadAction(ToBucket("b", x), u1, 0, None), UploadAction(ToBucket("b", x), u2, 0, pick),
                UploadAction(ToBucket(Through(u2), y), u3, 0, None)];
    ThreeSteps(cfg, actions, s1, s2, s);
  }

  lemma ThreeSteps(cfg: Config, actions: seq<Action>, s1: State, s2: State, s: State)
    requires |actions| == 3
    requires Legal(cfg, EMPTY, actions[0]) && Step(cfg, EMPTY, actions[0]) == s1
    requires Legal(cfg, s1, actions[1]) && Step(cfg, s1, actions[1]) == s2
    requires Legal(cfg, s2, actions[2]) && Step(cfg, s2, actions[2]) == s
    ensures Run(cfg, EMPTY, actions, s)
  {
    hide Legal, Step;
    assert Run(cfg, s, actions[3..], s);
    assert actions[2..][1..] == actions[3..] && Run(cfg, s2, actions[2..], s);
    assert actions[1..][1..] == actions[2..] && Run(cfg, s1, actions[1..], s);
  }

  /** Moving the second row to another bucket then moves the directory: the edit succeeds, the row
      no longer opens, and the third row has lost its object. */
  lemma EditMovesDirectory(cfg: Config, u1: UUID, u2: UUID, u3: UUID, x: Bytes, y: Bytes)
      returns (actions: seq<Action>, s: State)
    requires cfg.dedup && cfg.ensure == AsPromised && u1 != u2 && u1 != u3 && u2 != u3 && cfg.sha(x) != cfg.sha(y)
    ensures Run(cfg, EMPTY, actions, s) && !LosesSharedObject(s, u2, "c") && MovesOwnDirectory(s, u2, "c")
    ensures OpenFile(s, u2).Ok? && OpenFile(s, u3).Ok?
    ensures var r := Edit(s, u2, EditInput(None, Some("c"), None));
      r.result.Ok? && OpenFile(r.state, u2).Err? && OpenFile(r.state, u3).Err?
  {
    hide Edit, Run, Inv, PlainBucket, Segments, ValidBucketName, OpenFile, Relocated, Temps, HoldsOwnObject, Free;
    actions, s := ThroughBorrower(cfg, u1, u2, u3, x, y);
    OpenRow(cfg.sha, s, u2);
    OpenRow(cfg.sha, s, u3);
    FlatBucket("b");
    FlatBucket("c");
    assert ["b"] + [u2] == ["b", u2] && ["c"] + [u2] == ["c", u2];
    NotOwn(s.rows[u2], u1, u2);
    DirectoryInTheWay(s, u2);
    DirectoryGone(cfg, s, u2, u3);
  }

  lemma DirectoryGone(cfg: Config, s: State, u2: UUID, u3: UUID)
    requires Inv(cfg.sha, s) && u2 in s.rows && u3 in s.rows && s.rows[u2].bucket == "b" && u2 != u3
    requires s.rows[u3].path == "b/" + u2 + "/" + u3
    requires MovesOwnDirectory(s, u2, "c") && ["b", u2] in s.tree.dirs
    ensures var r := Edit(s, u2, EditInput(None, Some("c"), None));
      r.result.Ok? && OpenFile(r.state, u2).Err? && OpenFile(r.state, u3).Err?
  {
    hide Edit, InvExcept, PlainBucket, Segments, ValidBucketName, OpenFile, Relocated, MovesOwnDirectory, IsUuid,
      Edited, BlobObject, Locate;
    var r := Edit(s, u2, EditInput(None, Some("c"), None));
    DirectoryMoved(cfg, s, u2);
    NotRelocated(s.tree.files, ["b", u2], ["c", u2]);
    assert ["b", u2] <= ["b", u2, u3] && ["c", u2][0] != ["b", u2, u3][0];
    NothingLeft(s.tree.files, ["b", u2], ["c", u2], ["b", u2, u3]);
    FlatPlace("c", u2);
    GoneRow(r.state, u2, "c", u2, ["c", u2]);
    NestedPlace(u2, u3);
    assert "b" + "/" + (u2 + "/" + u3) == "b/" + u2 + "/" + u3;
    GoneRow(r.state, u3, "b", u2 + "/" + u3, ["b", u2, u3]);
  }

  lemma DirectoryMoved(cfg: Config, s: State, u2: UUID)
    requires Inv(cfg.sha, s) && u2 in s.rows && s.rows[u2].bucket == "b"
    requires MovesOwnDirectory(s, u2, "c") && ["b", u2] in s.tree.dirs
    ensures ["b", u2] !in s.tree.files && ["c", u2] !in s.tree.files
    ensures var r := Edit(s, u2, EditInput(None, Some("c"), None));
      && r.result.Ok? && r.state.rows.Keys == s.rows.Keys && r.state.rows[u2].path == "c" + "/" + u2
      && (forall x :: x in s.rows && x != u2 ==> r.state.rows[x] == s.rows[x])
      && r.state.tree.files == Relocated(s.tree.files, ["b", u2], ["c", u2])
  {
    hide Edit, InvExcept, PlainBucket, Segments, ValidBucketName, Relocated, MovesOwnDirectory, IsUuid, Edited, Free;
    FlatBucket("b");
    FlatBucket("c");
    assert ["b"] + [u2] == ["b", u2] && ["c"] + [u2] == ["c", u2];
    EditExact(cfg.sha, s, u2, EditInput(None, Some("c"), None));
    EditMoveDirectory(cfg.sha, s, u2, "c");
  }

  lemma FlatPlace(name: string, id: UUID)
    requires name == "b" || name == "c"
    ensures Locate(name, id) == Some([name, id])
  {
    hide PlainBucket, ValidBucketName;
    SingleSegment(name);
    UuidPlain(id);
    LocateKey(name, id);
    assert [name] + [id] == [name, id];
  }

  lemma NestedPlace(a: UUID, b: UUID)
    ensures Locate("b", a + "/" + b) == Some(["b", a, b])
  {
    hide IsUuid;
    SingleSegment("b");
    UuidPlain(a);
    UuidPlain(b);
    SplitTwo(a, b);
    assert Split(a + "/" + b, '/') == [a, b];
    PlainSegments(a + "/" + b);
    assert ["b"] + [a, b] == ["b", a, b];
  }

  lemma NotOwn(row: Blob, u1: UUID, u2: UUID)
    requires row.bucket == "b" && row.path == "b/" + u1 && u1 != u2
    ensures !HoldsOwnObject(row, u2)
  {
    assert ("b" + "/" + u2)[2..] == u2 && ("b/" + u1)[2..] == u1;
  }

  lemma DirectoryInTheWay(s: State, id: UUID)
    requires s.tree.dirs <= {[], ["b"], ["b", id]}
    requires forall f :: f in s.tree.files ==> |f| >= 2 && f[0] == "b"
    ensures Free(s.tree, ["c", id])
  {
    forall f | f in s.tree.files ensures !(f < ["c", id]) {
      assert |f| >= 2;
    }
  }

  /** Nothing stays at or below a directory that moved away. */
  lemma NothingLeft(files: map<Path, Bytes>, src: Path, dst: Path, p: Path)
    requires src <= p && !(dst <= p)
    ensures p !in Relocated(files, src, dst)
  {
    forall f | f in files ensures Forth(f, src, dst) != p {
      assert src <= f ==> dst <= Forth(f, src, dst);
    }
  }

  /** A row whose place holds no object does not open. */
  lemma GoneRow(s: State, id: UUID, first: string, rest: string, home: Path)
    requires id in s.rows && s.rows[id].path == first + "/" + rest && '/' !in first
    requires Locate(first, rest) == Some(home) && home !in s.tree.files
    ensures OpenFile(s, id).Err?
  {
    hide Locate;
    BucketKeyOf(first, rest);
  }

  // ---------- a store that deduplicates and one that does not ----------

  /** Adding a served call in front of a run of twins. */
  lemma TwinBefore(a: Config, b: Config, s: State, t: State, call: Call, s1: State, t1: State, x: Answer, y: Answer,
      calls: seq<Call>, xs: seq<Answer>, ys: seq<Answer>, s': State, t': State)
    requires Callable(s, call) && Callable(t, call) && Serves(a, s, call, s1, x) && Serves(b, t, call, t1, y)
    requires Twin(a, b, s1, t1, calls, xs, ys, s', t')
    ensures Twin(a, b, s, t, [call] + calls, [x] + xs, [y] + ys, s', t')
  {
    hide Callable, Serves;
    assert ([call] + calls)[1..] == calls && ([x] + xs)[1..] == xs && ([y] + ys)[1..] == ys;
  }

  lemma ServesUpload(cfg: Config, s: State, input: UploadInput, id: UUID, pick: Option<UUID>)
    requires LatestWithHash(s.rows, cfg.sha(input.content), pick)
    ensures var r := Upload(cfg, s, input, id, 0, pick);
      Serves(cfg, s, UploadCall(input, id, 0), r.state, RowAnswer(r.result))
  {
    hide Upload;
    var r := Upload(cfg, s, input, id, 0, pick);
    assert Served(r, r.state, RowAnswer(r.result));
  }

  /** The same three uploads to both stores: the last goes to a bucket that runs through an object
      of the plain store, which refuses it, while the deduplicating store takes it. */
  lemma AnswersPart(cfg: Config, u1: UUID, u2: UUID, u3: UUID, x: Bytes, y: Bytes)
      returns (calls: seq<Call>, xs: seq<Answer>, ys: seq<Answer>, s: State, t: State)
    requires cfg.ensure == AsPromised && u1 != u2 && u1 != u3 && u2 != u3 && cfg.sha(x) != cfg.sha(y)
    ensures Twin(cfg.(dedup := true), cfg.(dedup := false), EMPTY, EMPTY, calls, xs, ys, s, t)
    ensures |xs| == |ys| == 3 && !AllAgree(xs, ys)
    ensures xs[2].RowAnswer? && xs[2].row.Ok? && ys[2] == RowAnswer(Err(BucketFailed))
  {
    hide Upload, Accepted, Inv, FreshId, PlainBucket, Segments, Temps, ValidBucketName, Serves, Twin, LatestWithHash;
    var a, b := cfg.(dedup := true), cfg.(dedup := false);
    var s1, p, s2 := TwoUploads(a, u1, u2, x);
    var t1, q, t2 := TwoUploads(b, u1, u2, x);
    OtherFresh(s2, u1, u3);
    FlatBucket("b");
    ThroughBucket(u2);
    var first, second, third := ToBucket("b", x), ToBucket("b", x), ToBucket(Through(u2), y);
    NoSuchHash(s2.rows, cfg.sha(y));
    NoSuchHash(t2.rows, cfg.sha(y));
    BesidePlace(u1, u2);
    OpenBucketAccepted(a, s2, Through(u2));
    var r := OwnUpload(a, s2, Through(u2), ["b", u2], u3, y, None);
    RefusedThrough(b, t2, u2, third, u3);
    ThirdFresh(t2, u1, u2, u3);
    s, t := r.state, t2;
    ServesUpload(a, EMPTY, first, u1, None);
    ServesUpload(b, EMPTY, first, u1, None);
    ServesUpload(a, s1, second, u2, p);
    ServesUpload(b, t1, second, u2, q);
    ServesUpload(a, s2, third, u3, None);
    ServesUpload(b, t2, third, u3, None);
    var x1, y1 := RowAnswer(Ok(FlatRow(a, x, u1))), RowAnswer(Ok(FlatRow(b, x, u1)));
    var x2, y2 := RowAnswer(Ok(FlatRow(a, x, u1))), RowAnswer(Ok(FlatRow(b, x, u2)));
    var x3, y3 := RowAnswer(r.result), RowAnswer(Err(BucketFailed));
    TwinNone(a, b, s, t);
    TwinBefore(a, b, s2, t2, UploadCall(third, u3, 0), s, t, x3, y3, [], [], [], s, t);
    calls, xs, ys := [UploadCall(third, u3, 0)] + [], [x3] + [], [y3] + [];
    TwinBefore(a, b, s1, t1, UploadCall(second, u2, 0), s2, t2, x2, y2, calls, xs, ys, s, t);
    calls, xs, ys := [UploadCall(second, u2, 0)] + calls, [x2] + xs, [y2] + ys;
    TwinBefore(a, b, EMPTY, EMPTY, UploadCall(first, u1, 0), s1, t1, x1, y1, calls, xs, ys, s, t);
    calls, xs, ys := [UploadCall(first, u1, 0)] + calls, [x1] + xs, [y1] + ys;
    assert xs[2] == x3 && ys[2] == y3 && !AnswersAgree(xs[2], ys[2]);
  }

  lemma NoSuchHash(rows: Rows, hash: string)
    requires forall id :: id in rows ==> rows[id].hash != hash
    ensures LatestWithHash(rows, hash, None)
  {
  }

  lemma TwinNone(a: Config, b: Config, s: State, t: State)
    ensures Twin(a, b, s, t, [], [], [], s, t)
  {
  }

  lemma RefusedThrough(cfg: Config, s: State, u: UUID, input: UploadInput, id: UUID)
    requires Inv(cfg.sha, s) && ["b", u] in s.tree.files && cfg.ensure == AsPromised && input.bucket == Through(u)
    ensures Upload(cfg, s, input, id, 0, None) == Reply(s, Err(BucketFailed))
  {
    hide InvExcept, Upload, ValidBucketName, PlainBucket, Segments;
    ThroughBucket(u);
    InvParts(cfg.sha, s, NOBODY);
    assert ["b", u] <= Segments(input.bucket);
    UploadRefused(cfg, s, input, id, 0, None);
  }

  lemma ThirdFresh(s: State, u1: UUID, u2: UUID, other: UUID)
    requires u1 != other && u2 != other && s.sessions == map[] && s.rows.Keys == {u1, u2}
    requires s.rows[u1].path == "b/" + u1 && s.rows[u2].path == "b/" + u2
    requires (forall f :: f in s.tree.files ==> f == ["b", u1] || f == ["b", u2]) && s.tree.dirs <= {[], ["b"]}
    ensures FreshId(s, other)
  {
    hide IsUuid, Segments;
    UuidLength(other);
    ThroughHome(s.rows[u1], "b/" + u1, u1);
    ThroughHome(s.rows[u2], "b/" + u2, u2);
  }

  // ---------- an upload between a crash and the rerun ----------

  /** A deletion stopped after the unlink; then the same content is uploaded to a bucket that runs
      through the deleted row's place. Exists finds the directory made there, and the new row
      points at it. */
  lemma AttachesToDirectory(cfg: Config, d: UUID, id: UUID, x: Bytes) returns (s: State)
    requires cfg.dedup && cfg.ensure == AsPromised && d != id
    ensures s == Upload(cfg, EMPTY, ToBucket("b", x), d, 0, None).state && d in s.rows
    ensures var c := CrashedDelete(s, d, Unlinked(0));
      && InvExcept(cfg.sha, c, {d}) && d in c.rows && FreshId(c, id) && LatestWithHash(c.rows, cfg.sha(x), Some(d))
      && var r := Upload(cfg, c, ToBucket(Through(d), x), id, 0, Some(d));
         r.result.Ok? && r.result.value.path == "b/" + d && Home(r.result.value) !in Blobs(r.state.tree)
  {
    hide Upload, Accepted, Inv, FreshId, PlainBucket, Segments, Temps, ValidBucketName, CrashedDelete, Blobs,
      InvExcept, Home;
    s := OneUpload(cfg, d, x);
    var c := CrashedDelete(s, d, Unlinked(0));
    InvLoose(cfg.sha, s);
    CrashedDeleteInv(cfg.sha, s, d, Unlinked(0), NOBODY);
    assert NOBODY + {d} == {d};
    CrashedFiles(s, d, x);
    OtherFresh(c, d, id);
    ThroughBucket(d);
    ThroughHome(s.rows[d], "b/" + d, d);
    OpenBucketAccepted(cfg, c, Through(d));
    HomesFree(cfg.sha, c, {d}, d);
    InvParts(cfg.sha, c, {d});
    var input := ToBucket(Through(d), x);
    UploadThroughBreaks(cfg, c, input, id, 0, Some(d), {d}) by {
      assert Home(s.rows[d]) !in Blobs(c.tree) by { NoBlobs(c.tree); }
    }
    UploadOutcome(cfg, c, input, id, 0, Some(d));
  }

  lemma NoBlobs(t: Tree)
    requires t.files == map[]
    ensures Blobs(t) == map[]
  {
  }

  lemma CrashedFiles(s: State, d: UUID, x: Bytes)
    requires d in s.rows && s.rows == map[d := s.rows[d]] && s.rows[d].path == "b/" + d
    requires s.tree.files == map[["b", d] := x] && s.tree.dirs == {[], ["b"]}
    ensures var c := CrashedDelete(s, d, Unlinked(0));
      c.tree.files == map[] && c.tree.dirs == {[], ["b"]} && c.rows == s.rows && c.sessions == s.sessions
  {
    hide Locate;
    FlatPlace("b", d);
    BucketKeyOf("b", d);
    assert "b" + "/" + d == "b/" + d;
    assert Sharers(s.rows, s.rows[d].path) == {d};
  }

  // ---------- an upload into the chunk namespace ----------

  /** Why uploads must stay out of the chunk namespace as well: in any tree, an upload that can be
      read is gone when a session is cleaned up, exactly if its place lies in the directory of that
      session's chunks; otherwise the cleanup leaves it as it is. */
  lemma SessionUploadLost(cfg: Config, s: State, input: UploadInput, session: UUID, id: UUID, now: int,
      pick: Option<UUID>)
    requires Valid(s.tree) && FirstSegmentKept(input.bucket)
    requires (pick.Some? ==> pick.value in s.rows) && (cfg.dedup ==> pick.None?)
    requires Upload(cfg, s, input, id, now, pick).result.Ok?
    ensures var r := Upload(cfg, s, input, id, now, pick).state;
      var cleaned := CleanupAbandoned(Cleaned(r, 0), [session]).state;
      && OpenFile(r, id).Ok? && cleaned.rows == r.rows
      && OpenFile(cleaned, id) == (if [CHUNK_BUCKET, session] <= BlobObject(input.bucket, id) then Err(StorageFailed)
                                   else OpenFile(r, id))
  {
    hide Upload, OpenFile, ValidComponent, FirstSegmentKept, Locate, LocatePath, IsUuid, RemoveTree, CleanupAbandoned,
      Segments, Split, ValidBucketName, ExistsAt;
    var r := Upload(cfg, s, input, id, now, pick).state;
    UploadPlaced(cfg, s, input, id, now, pick);
    UploadReadableIff(cfg, s, input, id, now, pick);
    ValidatedBucket(input.bucket);
    StoredPathReachable(input.bucket, id);
    UploadedValid(cfg, s, input, id, now, pick);
    OneCleaned(r, session);
    var place := Segments(input.bucket) + [id];
    SessionGone(r.tree, session, place);
    ReadThrough(CleanupAbandoned(Cleaned(r, 0), [session]).state, id);
    ReadThrough(r, id);
  }

  lemma OneCleaned(s: State, session: UUID)
    ensures CleanupAbandoned(Cleaned(s, 0), [session]).state
         == s.(sessions := s.sessions - {session}, tree := RemoveTree(s.tree, CHUNK_BUCKET, session).tree)
  {
    hide RemoveTree;
    var next :=
      Cleaned(s.(sessions := s.sessions - {session}, tree := RemoveTree(s.tree, CHUNK_BUCKET, session).tree), 1);
    assert [session][1..] == [];
    assert CleanupAbandoned(next, []) == next;
  }

  lemma UploadedValid(cfg: Config, s: State, input: UploadInput, id: UUID, now: int, pick: Option<UUID>)
    requires Valid(s.tree) && (pick.Some? ==> pick.value in s.rows) && (cfg.dedup ==> pick.None?)
    ensures Valid(Upload(cfg, s, input, id, now, pick).state.tree)
  {
    hide Locate, ValidBucketName, ValidComponent, Write, Valid, MakeParents;
    var t := EnsureBucket(cfg.ensure, s.tree, input.bucket).tree;
    EnsuredValid(cfg.ensure, s.tree, input.bucket);
    var at := Locate(input.bucket, id);
    if at.Some? {
      WriteEffect(t, at.value, input.content);
    }
  }

  lemma EnsuredValid(mode: BucketCreation, t: Tree, bucket: string)
    requires Valid(t)
    ensures Valid(EnsureBucket(mode, t, bucket).tree)
  {
    hide Valid, MakeParents;
    EnsureBucketAlwaysFails(t, bucket);
    MakeParentsValid(t, Segments(bucket) + [""]);
  }

  /** Cleaning up a session removes the objects at and below its directory and no other. */
  lemma SessionGone(t: Tree, session: UUID, place: Path)
    requires Valid(t) && place in t.files
    ensures var after := RemoveTree(t, CHUNK_BUCKET, session).tree;
      && (place in after.files <==> !([CHUNK_BUCKET, session] <= place))
      && (place in after.files ==> after.files[place] == t.files[place])
  {
    hide Locate, RemoveAll;
    SessionLocation(session);
    RemoveAllEffect(t, [CHUNK_BUCKET, session]);
  }

  // ---------- a body that breaks off over a recorded chunk ----------

  /** A chunk request of the session's owner. */
  function Sends(cfg: Config, s: State, id: UUID, index: int, body: Bytes, broken: bool): ChunkInput
    requires id in s.sessions
  {
    ChunkInput(id, s.sessions[id].owner, index, cfg.sha(body), body, broken)
  }

  ghost predicate OpenSession(s: State, id: UUID) {
    id in s.sessions && !s.sessions[id].completed
  }

  ghost predicate WithinChunkLimits(cfg: Config, body: Bytes) {
    && (cfg.minChunk > 0 ==> cfg.minChunk <= |body|)
    && (cfg.maxChunk > 0 ==> |body| <= cfg.maxChunk)
  }

  /** A new chunk is accepted while the sum fits. */
  lemma ChunkTaken(cfg: Config, s: State, id: UUID, index: int, body: Bytes) returns (r: State)
    requires Shaped(s.tree) && OpenSession(s, id) && Distinct(s.sessions[id].chunksDone)
    requires index !in s.sessions[id].chunksDone
    requires cfg.sha(body) != "" && WithinChunkLimits(cfg, body)
    requires var temps := Temps(s.tree)[ChunkObject(id, index) := body];
      Stored(temps, id, s.sessions[id].chunksDone + [index]) <= cfg.maxUpload
    ensures r == UploadChunk(cfg, s, Sends(cfg, s, id, index, body, false)).state
    ensures UploadChunk(cfg, s, Sends(cfg, s, id, index, body, false)).result.Ok?
    ensures Shaped(r.tree) && Temps(r.tree) == Temps(s.tree)[ChunkObject(id, index) := body]
    ensures Blobs(r.tree) == Blobs(s.tree)
    ensures SamePlaces(s.tree, r.tree) && r.rows == s.rows
    ensures r.sessions == s.sessions[id := s.sessions[id].(chunksDone := s.sessions[id].chunksDone + [index])]
  {
    hide Shaped, Temps, Blobs, UploadChunk, Stored, ChunkObject, SamePlaces, CheckChunk, Put;
    var input := Sends(cfg, s, id, index, body, false);
    r := UploadChunk(cfg, s, input).state;
    UploadChunkOutcome(cfg, s, input);
    FoldsToItself(cfg.sha(body));
    ChunkAcceptedIff(cfg, s, input);
  }

  lemma FoldsToItself(x: string)
    ensures EqualFold(x, x)
  {
  }

  lemma StoredPair(temps: Chunks, id: UUID)
    ensures Stored(temps, id, [0]) == SizeOf(temps, id, 0)
    ensures Stored(temps, id, [0, 1]) == SizeOf(temps, id, 0) + SizeOf(temps, id, 1)
  {
    assert [0, 1][1..] == [1] && [0][1..] == [] && [1][1..] == [];
    assert Stored(temps, id, [1]) == SizeOf(temps, id, 1) + Stored(temps, id, []);
  }

  /** Two chunks that fit are recorded, and the first is sent again with a longer body that breaks
      off. The request fails, but the part that arrived stays under the recorded index and the
      session is over the cap. Complete assembles it: the blob is larger than the cap. */
  lemma CapOvershot(cfg: Config, s: State, id: UUID, a: Bytes, b: Bytes, part: Bytes, now: int)
      returns (s1: State, s2: State, s3: State)
    requires Inv(cfg.sha, s) && OpenSession(s, id) && s.sessions[id].chunksDone == []
    requires Free(s.tree, BlobObject(s.sessions[id].bucket, id))
    requires cfg.sha(a) != "" && cfg.sha(b) != "" && cfg.sha(part) != "" && cfg.sha(part + b) != ""
    requires WithinChunkLimits(cfg, a) && WithinChunkLimits(cfg, b) && WithinChunkLimits(cfg, part)
    requires 0 < cfg.maxUpload && |a| + |b| <= cfg.maxUpload < |part| + |b|
    ensures s1 == UploadChunk(cfg, s, Sends(cfg, s, id, 0, a, false)).state && id in s1.sessions
    ensures s2 == UploadChunk(cfg, s1, Sends(cfg, s1, id, 1, b, false)).state && id in s2.sessions
    ensures BreaksCap(cfg, s2, Sends(cfg, s2, id, 0, part, true))
    ensures UploadChunk(cfg, s2, Sends(cfg, s2, id, 0, part, true)) == Reply(s3, Err(SaveFailed)) && id in s3.sessions
    ensures Stored(Temps(s3.tree), id, s3.sessions[id].chunksDone) > cfg.maxUpload
    ensures var r := Complete(cfg, s3, CompleteInput(id, s3.sessions[id].owner, cfg.sha(part + b)), now);
      r.result.Ok? && OpenFile(r.state, id) == Ok((r.result.value, part + b, |part + b|)) && |part + b| > cfg.maxUpload
  {
    hide InvExcept, Shaped, Temps, Blobs, UploadChunk, Stored, ChunkObject, SamePlaces, Complete, OpenFile, Free,
      BlobObject;
    InvParts(cfg.sha, s, NOBODY);
    StoredPair(Temps(s.tree)[ChunkObject(id, 0) := a], id);
    assert [] + [0] == [0] && [0] + [1] == [0, 1];
    s1 := ChunkTaken(cfg, s, id, 0, a);
    ChunksDistinct(id, 0, 1);
    StoredPair(Temps(s1.tree)[ChunkObject(id, 1) := b], id);
    s2 := ChunkTaken(cfg, s1, id, 1, b);
    StoredPair(Temps(s2.tree)[ChunkObject(id, 0) := part], id);
    var broken := Sends(cfg, s2, id, 0, part, true);
    UploadChunkOutcome(cfg, s2, broken);
    s3 := UploadChunk(cfg, s2, broken).state;
    UploadChunkKeeps(cfg, s, Sends(cfg, s, id, 0, a, false));
    UploadChunkKeeps(cfg, s1, Sends(cfg, s1, id, 1, b, false));
    UploadChunkKeeps(cfg, s2, broken);
    SamePlacesTwice(s.tree, s1.tree, s2.tree);
    SamePlacesTwice(s.tree, s2.tree, s3.tree);
    SessionBucket(cfg.sha, s, id);
    StillFree(s.tree, s3.tree, s.sessions[id].bucket, id);
    OverCapCompletes(cfg, s3, id, part, b, now);
  }

  lemma StillFree(t: Tree, u: Tree, bucket: string, id: UUID)
    requires Shaped(t) && Shaped(u) && SamePlaces(t, u) && Blobs(t) == Blobs(u) && PlainBucket(bucket)
    ensures Free(t, BlobObject(bucket, id)) <==> Free(u, BlobObject(bucket, id))
  {
    hide Shaped, SamePlaces, Blobs, PlainBucket, Free;
    BlobObjectShape(bucket, id);
    PlacesFree(t, u, BlobObject(bucket, id));
  }

  lemma OverCapCompletes(cfg: Config, s: State, id: UUID, part: Bytes, b: Bytes, now: int)
    requires Inv(cfg.sha, s) && OpenSession(s, id) && s.sessions[id].chunksDone == [0, 1]
    requires Free(s.tree, BlobObject(s.sessions[id].bucket, id)) && cfg.sha(part + b) != ""
    requires ChunkObject(id, 0) in Temps(s.tree) && Temps(s.tree)[ChunkObject(id, 0)] == part
    requires ChunkObject(id, 1) in Temps(s.tree) && Temps(s.tree)[ChunkObject(id, 1)] == b
    ensures var r := Complete(cfg, s, CompleteInput(id, s.sessions[id].owner, cfg.sha(part + b)), now);
      r.result.Ok? && OpenFile(r.state, id) == Ok((r.result.value, part + b, |part + b|))
  {
    hide InvExcept, Shaped, Temps, Blobs, ChunkObject, Complete, OpenFile, Free, BlobObject, Assemble, Sort, Concat;
    var input := CompleteInput(id, s.sessions[id].owner, cfg.sha(part + b));
    InvParts(cfg.sha, s, NOBODY);
    SortRange([0, 1], 2);
    AssembleConcat(s.tree, id, Range(2));
    TwoParts(ChunkBytes(Temps(s.tree), id, Range(2)), part, b);
    FoldsToItself(cfg.sha(part + b));
    CompleteOutcome(cfg, s, input, now);
    CompleteKeeps(cfg, s, input, now);
    var r := Complete(cfg, s, input, now);
    OpenRow(cfg.sha, r.state, id);
    SessionBucket(cfg.sha, s, id);
    HomeOfOwn(r.result.value, id);
  }

  lemma TwoParts(parts: seq<Bytes>, a: Bytes, b: Bytes)
    requires |parts| == 2 && parts[0] == a && parts[1] == b
    ensures Concat(parts) == a + b
  {
    assert Concat(parts[1..]) == b + Concat(parts[1..][1..]);
    assert parts[1..][1..] == [];
  }

  lemma FourSteps(cfg: Config, actions: seq<Action>, s1: State, s2: State, s3: State, s: State)
    requires |actions| == 4
    requires Legal(cfg, EMPTY, actions[0]) && Step(cfg, EMPTY, actions[0]) == s1
    requires Legal(cfg, s1, actions[1]) && Step(cfg, s1, actions[1]) == s2
    requires Legal(cfg, s2, actions[2]) && Step(cfg, s2, actions[2]) == s3
    requires Legal(cfg, s3, actions[3]) && Step(cfg, s3, actions[3]) == s
    ensures Run(cfg, EMPTY, actions, s)
  {
    hide Legal, Step;
    assert Run(cfg, s, actions[4..], s);
    assert actions[3..][1..] == actions[4..] && Run(cfg, s3, actions[3..], s);
    assert actions[2..][1..] == actions[3..] && Run(cfg, s2, actions[2..], s);
    assert actions[1..][1..] == actions[2..] && Run(cfg, s1, actions[1..], s);
  }

  /** The first session of an empty store. */
  lemma FirstSession(cfg: Config, init: InitiateInput, id: UUID) returns (s: State)
    requires cfg.ensure == AsPromised && init.bucket == "b"
    ensures PlainBucket(init.bucket) && FreshId(EMPTY, id)
    ensures s == Initiate(cfg, EMPTY, init, id, 0).state && Inv(cfg.sha, s) && OpenSession(s, id)
    ensures s.sessions[id].chunksDone == [] && Free(s.tree, BlobObject(s.sessions[id].bucket, id))
  {
    hide Inv, PlainBucket, ValidBucketName, Free, BlobObject, Initiate, FreshId;
    FlatBucket("b");
    EmptyFacts(cfg.sha, id);
    InitiateOpensFresh(cfg, EMPTY, init, id, 0);
    s := Initiate(cfg, EMPTY, init, id, 0).state;
  }

  /** So the cap is exceeded in a run from an empty store that any client can bring about. */
  lemma RunOverCap(cfg: Config, id: UUID, owner: UUID, a: Bytes, b: Bytes, part: Bytes)
      returns (actions: seq<Action>, end: State)
    requires cfg.ensure == AsPromised
    requires cfg.sha(a) != "" && cfg.sha(b) != "" && cfg.sha(part) != "" && cfg.sha(part + b) != ""
    requires WithinChunkLimits(cfg, a) && WithinChunkLimits(cfg, b) && WithinChunkLimits(cfg, part)
    requires 0 < cfg.maxUpload && |a| + |b| <= cfg.maxUpload < |part| + |b|
    ensures Run(cfg, EMPTY, actions, end) && !CappedThroughout(cfg, EMPTY, actions)
    ensures id in end.sessions && Stored(Temps(end.tree), id, end.sessions[id].chunksDone) > cfg.maxUpload
  {
    hide Inv, Temps, UploadChunk, Stored, PlainBucket, ValidBucketName, Free, BlobObject, Initiate, FreshId,
      BreaksCap, CappedThroughout, Complete, OpenFile, WithinChunkLimits;
    var init := InitiateInput(owner, "b", "", 0);
    var s := FirstSession(cfg, init, id);
    var s1, s2, s3 := CapOvershot(cfg, s, id, a, b, part, 0);
    end := s3;
    var broken := Sends(cfg, s2, id, 0, part, true);
    actions := [InitiateAction(init, id, 0), ChunkAction(Sends(cfg, s, id, 0, a, false)),
                ChunkAction(Sends(cfg, s1, id, 1, b, false)), ChunkAction(broken)];
    FourSteps(cfg, actions, s, s1, s2, s3);
    assert !SessionCapped(cfg, Temps(end.tree), id, end.sessions[id].chunksDone);
    if CappedThroughout(cfg, EMPTY, actions) {
      EndCapped(cfg, EMPTY, actions, end);
    }
  }

  /** The end of a run that is within the cap all along is within the cap. */
  lemma {:induction false} EndCapped(cfg: Config, s: State, actions: seq<Action>, end: State)
    requires Run(cfg, s, actions, end) && CappedThroughout(cfg, s, actions)
    ensures CapInv(cfg, end)
    decreases |actions|
  {
    hide Legal, Step, CapInv;
    if actions != [] {
      EndCapped(cfg, Step(cfg, s, actions[0]), actions[1..], end);
    }
  }
}
