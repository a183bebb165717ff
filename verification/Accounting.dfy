/** Storage accounting: the bytes on disk against the sizes in the rows. */
module Accounting {
  import opened Wrappers
  import opened Text
  import opened Paths
  import opened Trees
  import opened Store
  import opened BlobModel
  import opened Shapes
  import opened Integrity
  import opened Expiry
  import opened Runs
  import References
  import UploadCap

  // ---------- sums ----------

  ghost function Sum(m: map<Path, nat>): nat
    decreases |m|
  {
    if m == map[] then 0
    else
      var k :| k in m;
      assert (m - {k}).Keys == m.Keys - {k};
      m[k] + Sum(m - {k})
  }

  /** A sum may be taken apart at any key. */
  lemma {:induction false} SumAt(m: map<Path, nat>, k: Path)
    requires k in m
    ensures Sum(m) == m[k] + Sum(m - {k})
    decreases |m|
  {
    var j :| j in m && Sum(m) == m[j] + Sum(m - {j});
    assert (m - {j}).Keys == m.Keys - {j};
    assert (m - {k}).Keys == m.Keys - {k};
    if j != k {
      SumAt(m - {j}, k);
      assert m - {j} - {k} == m - {k} - {j};
      SumAt(m - {k}, j);
    }
  }

  lemma SumAdd(m: map<Path, nat>, k: Path, n: nat)
    requires k !in m
    ensures Sum(m[k := n]) == Sum(m) + n
  {
    SumAt(m[k := n], k);
    assert m[k := n] - {k} == m;
  }

  lemma {:induction false} SumPart(a: map<Path, nat>, b: map<Path, nat>)
    requires forall k :: k in a ==> k in b && a[k] == b[k]
    ensures Sum(a) <= Sum(b)
    decreases |a|
  {
    if a != map[] {
      var k :| k in a;
      SumAt(a, k);
      SumAt(b, k);
      assert (a - {k}).Keys == a.Keys - {k};
      SumPart(a - {k}, b - {k});
    }
  }

  function Sizes(objects: map<Path, Bytes>): map<Path, nat> {
    map f | f in objects :: |objects[f]|
  }

  /** GetTotalStorageSize of the storage base. */
  ghost function StorageUsed(t: Tree): nat {
    Sum(Sizes(t.files))
  }

  /** The objects at any of these places and below them. */
  function Under(files: map<Path, Bytes>, places: set<Path>): map<Path, Bytes> {
    map f | f in files && (exists p :: p in places && p <= f) :: files[f]
  }

  function Entries(t: Tree, d: Path): set<Path> {
    (set e | e in t.dirs && e != [] && Parent(e) == d) + (set f | f in t.files && f != [] && Parent(f) == d)
  }

  /** Everything at a place and below it, directories included. */
  function Nodes(t: Tree, p: Path): set<Path> {
    set q | q in t.dirs + t.files.Keys && p <= q
  }

  lemma {:induction false} SumSplit(m: map<Path, nat>, a: map<Path, nat>, b: map<Path, nat>)
    requires a.Keys !! b.Keys && m == a + b
    ensures Sum(m) == Sum(a) + Sum(b)
    decreases |a|
  {
    hide Sum;
    if a == map[] {
      assert m == b;
      EmptySum();
    } else {
      var k :| k in a;
      SumAt(m, k);
      SumAt(a, k);
      FewerKeys(a, k);
      WithoutKey(a, b, k);
      SumSplit(m - {k}, a - {k}, b);
    }
  }

  lemma EmptySum()
    ensures Sum(map[]) == 0
  {
  }

  lemma FewerKeys(m: map<Path, nat>, k: Path)
    requires k in m
    ensures |m - {k}| < |m|
  {
    assert (m - {k}).Keys == m.Keys - {k};
  }

  lemma WithoutKey(a: map<Path, nat>, b: map<Path, nat>, k: Path)
    requires k in a && a.Keys !! b.Keys
    ensures a + b - {k} == (a - {k}) + b && (a - {k}).Keys !! b.Keys
  {
  }

  lemma StrictlyBelow(t: Tree, d: Path, f: Path)
    requires Valid(t) && d in t.dirs && f in t.files && d <= f
    ensures d < f
  {
    assert d != f;
    assert |d| == |f| ==> d == f;
  }

  /** The entries of a directory share out what is below it. */
  lemma EntriesCover(t: Tree, d: Path)
    requires Valid(t) && d in t.dirs
    ensures Under(t.files, Entries(t, d)) == Under(t.files, {d})
  {
    forall f | f in t.files && d <= f ensures exists e :: e in Entries(t, d) && e <= f {
      StrictlyBelow(t, d, f);
      var e := f[..|d| + 1];
      assert Parent(e) == d;
      if e != f {
        DirsAbove(t, Parent(f), e);
      }
      assert e in Entries(t, d) && e <= f;
    }
    forall f, e | f in t.files && e in Entries(t, d) && e <= f ensures d <= f {
      assert d == f[..|d|];
    }
  }

  lemma UnderOneMore(files: map<Path, Bytes>, places: set<Path>, e: Path)
    requires e in places && forall p :: p in places ==> |p| == |e|
    ensures Sum(Sizes(Under(files, places))) == Sum(Sizes(Under(files, {e}))) + Sum(Sizes(Under(files, places - {e})))
  {
    hide Sum, Under, Sizes;
    UnderSplit(files, places, e);
    SizesJoin(Under(files, {e}), Under(files, places - {e}));
    SumSplit(Sizes(Under(files, places)), Sizes(Under(files, {e})), Sizes(Under(files, places - {e})));
  }

  lemma UnderSplit(files: map<Path, Bytes>, places: set<Path>, e: Path)
    requires e in places && forall p :: p in places ==> |p| == |e|
    ensures Under(files, {e}).Keys !! Under(files, places - {e}).Keys
    ensures Under(files, places) == Under(files, {e}) + Under(files, places - {e})
  {
    forall f | f in files
      ensures f in Under(files, {e}) <==> e <= f
      ensures f in Under(files, places) <==> f in Under(files, {e}) || f in Under(files, places - {e})
      ensures !(f in Under(files, {e}) && f in Under(files, places - {e}))
    {
      OnlyOneAbove(places, e, f);
    }
  }

  lemma SizesJoin(a: map<Path, Bytes>, b: map<Path, Bytes>)
    requires a.Keys !! b.Keys
    ensures Sizes(a + b) == Sizes(a) + Sizes(b) && Sizes(a).Keys !! Sizes(b).Keys
  {
  }

  lemma OnlyOneAbove(places: set<Path>, e: Path, f: Path)
    requires e in places && forall p :: p in places ==> |p| == |e|
    ensures (exists p :: p in places && p <= f) <==> e <= f || exists p :: p in places - {e} && p <= f
    ensures e <= f ==> !exists p :: p in places - {e} && p <= f
  {
    if e <= f {
      OnePlaceAbove(places, e, f);
    } else if p :| p in places && p <= f {
      assert p in places - {e};
    }
  }

  lemma OnePlaceAbove(places: set<Path>, e: Path, f: Path)
    requires e <= f && forall p :: p in places ==> |p| == |e|
    ensures forall p :: p in places && p <= f ==> p == e
  {
    forall p | p in places && p <= f ensures p == e {
      assert p == f[..|e|] == e;
    }
  }

  lemma WalkShrinks(t: Tree, d: Path, e: Path)
    requires Valid(t) && d in t.dirs && e in Entries(t, d)
    ensures |Nodes(t, e)| < |Nodes(t, d)| && (e in t.dirs || e in t.files)
  {
    forall q | q in Nodes(t, e) ensures q in Nodes(t, d) {
      assert d == e[..|d|] == q[..|d|];
    }
    assert d in Nodes(t, d) && d !in Nodes(t, e);
    assert Nodes(t, e) <= Nodes(t, d) - {d};
    SmallerSet(Nodes(t, e), Nodes(t, d) - {d});
  }

  lemma EntryLevel(t: Tree, d: Path, places: set<Path>, e: Path)
    requires places <= Entries(t, d) && e in places
    ensures forall p :: p in places ==> |p| == |e|
  {
    assert forall p :: p in Entries(t, d) ==> |p| == |d| + 1;
  }

  lemma {:induction false} SmallerSet(a: set<Path>, b: set<Path>)
    requires a <= b
    ensures |a| <= |b|
    decreases |a|
  {
    if a != {} {
      var x :| x in a;
      SmallerSet(a - {x}, b - {x});
    }
  }

  lemma SumOfNone()
    ensures Sum(Sizes(map[])) == 0
  {
    assert Sizes(map[]) == map[];
  }

  lemma SumOfFile(t: Tree, f: Path)
    requires Valid(t) && f in t.files
    ensures Sum(Sizes(Under(t.files, {f}))) == |t.files[f]|
  {
    forall g | g in t.files && f <= g ensures g == f {
      if f != g {
        ObjectsPrefixFree(t, f, g);
      }
    }
    assert Under(t.files, {f}) == map[][f := t.files[f]];
    SumOfNone();
    SumAdd(Sizes(map[]), f, |t.files[f]|);
    assert Sizes(map[])[f := |t.files[f]|] == Sizes(map[f := t.files[f]]);
  }

  lemma NothingUnder(files: map<Path, Bytes>)
    ensures Under(files, {}) == map[]
  {
  }

  lemma AllUnderBase(files: map<Path, Bytes>)
    ensures Under(files, {[]}) == files
  {
    forall f | f in files ensures f in Under(files, {[]}) {
      assert [] <= f;
    }
  }

  /** `filepath.Walk` from a place, adding up the sizes of the files. */
  method Walk(t: Tree, p: Path) returns (total: nat)
    requires Valid(t) && (p in t.dirs || p in t.files)
    ensures total == Sum(Sizes(Under(t.files, {p})))
    decreases |Nodes(t, p)|
  {
    hide Under, Sizes, Sum, Nodes, Valid, Entries;
    if p in t.files {
      SumOfFile(t, p);
      return |t.files[p]|;
    }
    total := 0;
    var pending := Entries(t, p);
    EntriesCover(t, p);
    while pending != {}
      invariant pending <= Entries(t, p)
      invariant total + Sum(Sizes(Under(t.files, pending))) == Sum(Sizes(Under(t.files, {p})))
      decreases |pending|
    {
      var e :| e in pending;
      WalkShrinks(t, p, e);
      EntryLevel(t, p, pending, e);
      UnderOneMore(t.files, pending, e);
      var inner := Walk(t, e);
      total := total + inner;
      pending := pending - {e};
    }
    NothingUnder(t.files);
    SumOfNone();
  }

  /** GetTotalStorageSize: the walk from the storage base, which fails when there is none. */
  method GetTotalStorageSize(t: Tree) returns (total: Option<nat>)
    requires [] in t.dirs ==> Valid(t)
    ensures total == if [] in t.dirs then Some(StorageUsed(t)) else None
  {
    if [] !in t.dirs {
      return None;
    }
    var bytes := Walk(t, []);
    AllUnderBase(t.files);
    total := Some(bytes);
  }

  // ---------- sizes of rows ----------

  /** Every row's size is the size of its object. */
  ghost predicate SizesTrue(rows: Rows, blobs: map<Path, Bytes>) {
    forall id :: id in rows && Home(rows[id]) in blobs ==> rows[id].size == |blobs[Home(rows[id])]|
  }

  function Homes(rows: Rows): set<Path> {
    set id | id in rows :: Home(rows[id])
  }

  /** The size some row gives for an object. */
  ghost function SizeAt(rows: Rows, home: Path): int
    requires home in Homes(rows)
  {
    var id: UUID :| id in rows && Home(rows[id]) == home;
    rows[id].size
  }

  /** Row sizes over distinct paths; rows at the same place have the same path text. */
  ghost function SizesByPath(rows: Rows): map<Path, int> {
    map home | home in Homes(rows) :: SizeAt(rows, home)
  }

  /** The bytes stored outside the temporary namespace, object by object, are the row sizes
      over distinct paths. */
  lemma BytesAreRowSizes(sha: Bytes -> string, s: State)
    requires Inv(sha, s) && SizesTrue(s.rows, Blobs(s.tree))
    ensures SizesByPath(s.rows) == Sizes(Blobs(s.tree))
  {
    hide InvExcept, Home, Blobs;
    forall home | home in Homes(s.rows) ensures home in Blobs(s.tree) && SizeAt(s.rows, home) == |Blobs(s.tree)[home]| {
      var id: UUID :| id in s.rows && Home(s.rows[id]) == home && SizeAt(s.rows, home) == s.rows[id].size;
      TightRow(sha, s, NOBODY, id);
    }
    forall f | f in Blobs(s.tree) ensures f in Homes(s.rows) {
      SurvivesIff(sha, s, f);
    }
  }

  /** Fewer rows over fewer objects keep true sizes. */
  lemma SizesOfPart(rows: Rows, blobs: map<Path, Bytes>, rows': Rows, blobs': map<Path, Bytes>)
    requires SizesTrue(rows, blobs) && PartOf(blobs', blobs)
    requires forall id :: id in rows' ==>
      id in rows && Home(rows'[id]) == Home(rows[id]) && rows'[id].size == rows[id].size
    ensures SizesTrue(rows', blobs')
  {
    hide Home;
  }

  // ---------- the operations on blobs ----------

  predicate Direct(a: Action) {
    a.UploadAction? || a.EditAction? || a.DeleteAction? || a.PurgeAction? || a.OpenAction?
  }

  lemma UploadSizes(cfg: Config, s: State, input: UploadInput, id: UUID, now: int, pick: Option<UUID>)
    requires Inv(cfg.sha, s) && SizesTrue(s.rows, Blobs(s.tree))
    requires UploadTarget(input.bucket) && FreshId(s, id) && LatestWithHash(s.rows, cfg.sha(input.content), pick)
    ensures var r := Upload(cfg, s, input, id, now, pick).state;
      && SizesTrue(r.rows, Blobs(r.tree))
      && Sum(Sizes(Blobs(r.tree))) <= Sum(Sizes(Blobs(s.tree))) + |input.content|
      && Temps(r.tree) == Temps(s.tree)
  {
    hide InvExcept, Blobs, Temps, UploadTarget, Home, Upload, EnsureBucket, SizesTrue, FreshId, Accepted;
    if Accepted(cfg, s, input.bucket) {
      UploadSizesDone(cfg, s, input, id, now, pick);
    } else {
      InvParts(cfg.sha, s, NOBODY);
      UploadRefused(cfg, s, input, id, now, pick);
    }
  }

  lemma UploadSizesDone(cfg: Config, s: State, input: UploadInput, id: UUID, now: int, pick: Option<UUID>)
    requires Inv(cfg.sha, s) && SizesTrue(s.rows, Blobs(s.tree))
    requires UploadTarget(input.bucket) && FreshId(s, id) && LatestWithHash(s.rows, cfg.sha(input.content), pick)
    requires Accepted(cfg, s, input.bucket)
    ensures var r := Upload(cfg, s, input, id, now, pick).state;
      && SizesTrue(r.rows, Blobs(r.tree))
      && Sum(Sizes(Blobs(r.tree))) <= Sum(Sizes(Blobs(s.tree))) + |input.content|
      && Temps(r.tree) == Temps(s.tree)
  {
    hide InvExcept, Shaped, Blobs, Temps, UploadTarget, PlainBucket, Home, Upload, BlobObject, SizesTrue, Refs,
      Accepted, Sizes, FreshId;
    FreshUnused(s, id);
    UploadInOrder(cfg, s, input, id, now, pick);
    var r, own := Upload(cfg, s, input, id, now, pick).state, BlobObject(input.bucket, id);
    HomesStored(cfg.sha, s);
    if cfg.dedup && pick.Some? {
      SharedSizes(s.rows, Blobs(s.tree), id, r.rows[id], pick.value);
    } else {
      AcceptedPlain(cfg, s, input.bucket);
      HomeOfNew(cfg, input, id, now);
      OwnSizes(s.rows, Blobs(s.tree), id, r.rows[id], own, input.content);
      SizesAdd(Blobs(s.tree), own, input.content);
    }
  }

  lemma SizesAdd(blobs: map<Path, Bytes>, own: Path, content: Bytes)
    requires own !in blobs
    ensures Sum(Sizes(blobs[own := content])) == Sum(Sizes(blobs)) + |content|
  {
    SumAdd(Sizes(blobs), own, |content|);
    assert Sizes(blobs[own := content]) == Sizes(blobs)[own := |content|];
  }

  lemma HomesStored(sha: Bytes -> string, s: State)
    requires Inv(sha, s)
    ensures forall id :: id in s.rows ==> Home(s.rows[id]) in Blobs(s.tree)
  {
    hide Shaped, Blobs, Home, RowsCanonical, SessionsOk;
    forall id | id in s.rows ensures Home(s.rows[id]) in Blobs(s.tree) {
      assert Refs(s.rows)[id].home == Home(s.rows[id]);
    }
  }

  lemma HomeOfNew(cfg: Config, input: UploadInput, id: UUID, now: int)
    requires PlainBucket(input.bucket)
    ensures Home(NewRow(cfg, input, id, now, None)) == BlobObject(input.bucket, id)
  {
    BlobObjectShape(input.bucket, id);
  }

  lemma SharedSizes(rows: Rows, blobs: map<Path, Bytes>, id: UUID, row: Blob, other: UUID)
    requires SizesTrue(rows, blobs) && other in rows && row.path == rows[other].path && row.size == rows[other].size
    ensures SizesTrue(rows[id := row], blobs)
  {
    hide Segments;
  }

  lemma OwnSizes(rows: Rows, blobs: map<Path, Bytes>, id: UUID, row: Blob, own: Path, content: Bytes)
    requires SizesTrue(rows, blobs) && own !in blobs && Home(row) == own && row.size == |content|
    requires forall x :: x in rows ==> Home(rows[x]) in blobs
    ensures SizesTrue(rows[id := row], blobs[own := content])
  {
    hide Home;
  }

  lemma EditSizes(sha: Bytes -> string, s: State, id: UUID, input: EditInput)
    requires Inv(sha, s) && SizesTrue(s.rows, Blobs(s.tree)) && !EditBreaks(s, id, input)
    requires AsksMove(input) ==> EditTarget(input.bucket.value)
    ensures var r := Edit(s, id, input).state;
      && SizesTrue(r.rows, Blobs(r.tree)) && Sum(Sizes(Blobs(r.tree))) == Sum(Sizes(Blobs(s.tree)))
  {
    hide Inv, Blobs, PlainBucket, Readable, Home, SizesTrue, Move, BucketKey, MovesOwnDirectory, LosesSharedObject;
    if id in s.rows {
      if AsksMove(input) && !Readable(input.bucket.value) {
        EditRefused(s, id, input);
      } else if AsksMove(input) {
        EditMoveSizes(sha, s, id, input);
      } else {
        SizesOfSame(s.rows, Blobs(s.tree), id, Edit(s, id, input).result.value);
      }
    }
  }

  lemma SizesOfSame(rows: Rows, blobs: map<Path, Bytes>, id: UUID, row: Blob)
    requires SizesTrue(rows, blobs) && id in rows && row.path == rows[id].path && row.size == rows[id].size
    ensures SizesTrue(rows[id := row], blobs)
  {
    hide Segments;
  }

  lemma EditMoveSizes(sha: Bytes -> string, s: State, id: UUID, input: EditInput)
    requires Inv(sha, s) && SizesTrue(s.rows, Blobs(s.tree)) && !EditBreaks(s, id, input)
    requires id in s.rows && AsksMove(input) && PlainBucket(input.bucket.value)
    ensures var r := Edit(s, id, input).state;
      && SizesTrue(r.rows, Blobs(r.tree)) && Sum(Sizes(Blobs(r.tree))) == Sum(Sizes(Blobs(s.tree)))
  {
    hide Inv, Blobs, PlainBucket, Home, SizesTrue, Edit, BlobObject, Sharers, Shaped, RowsCanonical, Refs, Free,
      MovesOwnDirectory, LosesSharedObject, Readable;
    PlainIsTarget(input.bucket.value);
    EditFields(s, id, input);
    EditMove(sha, s, id, input.bucket.value);
    var r := Edit(s, id, input);
    if r.result.Ok? {
      EditMoved(sha, s, id, input);
      EditKeepsIff(sha, s, id, input);
      HomesStored(sha, s);
      HomesStored(sha, r.state);
      var src, dst := Home(s.rows[id]), BlobObject(input.bucket.value, id);
      OwnedByRow(sha, s, id, dst);
      MovedSizes(s.rows, Blobs(s.tree), id, r.state.rows[id], src, dst);
      SumMoved(Blobs(s.tree), src, dst);
    }
  }

  lemma MovedSizes(rows: Rows, blobs: map<Path, Bytes>, id: UUID, row: Blob, src: Path, dst: Path)
    requires SizesTrue(rows, blobs) && id in rows && Home(rows[id]) == src && src in blobs
    requires Home(row) == dst && row.size == rows[id].size && (dst in blobs ==> dst == src)
    requires forall x :: x in rows ==> Home(rows[x]) in blobs
    ensures SizesTrue(rows[id := row], MapMove(blobs, src, dst))
  {
    hide Home;
  }

  lemma SumMoved(blobs: map<Path, Bytes>, src: Path, dst: Path)
    requires src in blobs && (dst in blobs ==> dst == src)
    ensures Sum(Sizes(MapMove(blobs, src, dst))) == Sum(Sizes(blobs))
  {
    SumAt(Sizes(blobs), src);
    assert Sizes(blobs) - {src} == Sizes(blobs - {src});
    SizesAdd(blobs - {src}, dst, blobs[src]);
  }

  lemma DeleteSizes(sha: Bytes -> string, s: State, id: UUID)
    requires Inv(sha, s) && SizesTrue(s.rows, Blobs(s.tree))
    ensures var r := DeleteBlob(s, id).state;
      SizesTrue(r.rows, Blobs(r.tree)) && Sum(Sizes(Blobs(r.tree))) <= Sum(Sizes(Blobs(s.tree)))
  {
    hide Shaped, Blobs, Home, RowsCanonical, SessionsOk, RemovePhysical, SizesTrue, Sharers;
    if id in s.rows {
      DropRow(sha, s, id, NOBODY);
      var r := DeleteBlob(s, id).state;
      SizesOfPart(s.rows, Blobs(s.tree), r.rows, Blobs(r.tree));
      SumPart(Sizes(Blobs(r.tree)), Sizes(Blobs(s.tree)));
    }
  }

  lemma PurgeSizes(sha: Bytes -> string, s: State, now: int, order: seq<UUID>)
    requires Inv(sha, s) && SizesTrue(s.rows, Blobs(s.tree)) && Lists(order, Expired(s.rows, now))
    ensures var r := PurgeExpired(s, order).state;
      SizesTrue(r.rows, Blobs(r.tree)) && Sum(Sizes(Blobs(r.tree))) <= Sum(Sizes(Blobs(s.tree)))
  {
    hide Shaped, Blobs, Home, RowsCanonical, SessionsOk, PurgeLoop, SizesTrue;
    PurgeLeaves(sha, s, now, order, NOBODY);
    var r := PurgeExpired(s, order).state;
    SizesOfPart(s.rows, Blobs(s.tree), r.rows, Blobs(r.tree));
    SumPart(Sizes(Blobs(r.tree)), Sizes(Blobs(s.tree)));
  }

  // ---------- runs under a storage limit ----------

  /** The quota check of the upload handler, made before the upload; a limit that is not
      positive is off. */
  ghost predicate WithinQuota(maxStorage: int, s: State, a: Action) {
    a.UploadAction? && maxStorage > 0 ==> StorageUsed(s.tree) + |a.upload.content| <= maxStorage
  }

  ghost predicate QuotaRun(cfg: Config, maxStorage: int, s: State, actions: seq<Action>, end: State)
    decreases |actions|
  {
    if actions == [] then s == end
    else
      && Direct(actions[0]) && Legal(cfg, s, actions[0]) && WithinQuota(maxStorage, s, actions[0])
      && QuotaRun(cfg, maxStorage, Step(cfg, s, actions[0]), actions[1..], end)
  }

  /** What direct runs keep: rows and bytes in step, no temporary object, and the quota. */
  ghost predicate Accounted(cfg: Config, maxStorage: int, s: State) {
    && Inv(cfg.sha, s) && SizesTrue(s.rows, Blobs(s.tree)) && Temps(s.tree) == map[]
    && (maxStorage > 0 ==> Sum(Sizes(Blobs(s.tree))) <= maxStorage)
  }

  lemma UsedIsBlobs(s: State)
    requires Temps(s.tree) == map[]
    ensures StorageUsed(s.tree) == Sum(Sizes(Blobs(s.tree)))
  {
    forall f | f in s.tree.files ensures f in Blobs(s.tree) {
      assert f !in Temps(s.tree);
    }
    assert s.tree.files == Blobs(s.tree);
  }

  lemma StepAccounted(cfg: Config, maxStorage: int, s: State, a: Action)
    requires Accounted(cfg, maxStorage, s) && Direct(a) && Legal(cfg, s, a) && WithinQuota(maxStorage, s, a)
    ensures Accounted(cfg, maxStorage, Step(cfg, s, a))
  {
    hide Inv, Blobs, Temps, PlainBucket, FreshId, EditBreaks, Upload, Edit, DeleteBlob, PurgeExpired, SizesTrue,
      Sizes, Sum, StorageUsed;
    StepKeepsInv(cfg, s, a);
    UploadCap.BlobActionsLeaveTemps(cfg, s, a);
    UsedIsBlobs(s);
    match a
    case UploadAction(input, id, now, pick) => UploadSizes(cfg, s, input, id, now, pick);
    case EditAction(id, input) => EditSizes(cfg.sha, s, id, input);
    case DeleteAction(id) => DeleteSizes(cfg.sha, s, id);
    case PurgeAction(now, order) => PurgeSizes(cfg.sha, s, now, order);
    case OpenAction(_) =>
  }

  lemma {:induction false} RunAccounted(cfg: Config, maxStorage: int, s: State, actions: seq<Action>, end: State)
    requires Accounted(cfg, maxStorage, s) && QuotaRun(cfg, maxStorage, s, actions, end)
    ensures Accounted(cfg, maxStorage, end)
    decreases |actions|
  {
    hide Accounted, Legal, Direct, Step, WithinQuota;
    if actions != [] {
      StepAccounted(cfg, maxStorage, s, actions[0]);
      RunAccounted(cfg, maxStorage, Step(cfg, s, actions[0]), actions[1..], end);
    }
  }

  lemma EmptyAccounted(cfg: Config, maxStorage: int)
    ensures Accounted(cfg, maxStorage, EMPTY)
  {
    EmptyInv(cfg.sha);
    assert Blobs(EMPTY.tree) == map[] && Temps(EMPTY.tree) == map[];
    assert Sizes(map[]) == map[];
  }

  /** Over every run of direct uploads, edits, deletes and purges from an empty store, the
      stored bytes are exactly the row sizes over distinct paths, and never exceed the limit
      the upload handler checks. */
  lemma StorageOverRuns(cfg: Config, maxStorage: int, actions: seq<Action>, end: State)
    requires QuotaRun(cfg, maxStorage, EMPTY, actions, end)
    ensures Sizes(end.tree.files) == SizesByPath(end.rows)
    ensures maxStorage > 0 ==> StorageUsed(end.tree) <= maxStorage
  {
    hide Inv, SizesTrue, QuotaRun;
    EmptyAccounted(cfg, maxStorage);
    RunAccounted(cfg, maxStorage, EMPTY, actions, end);
    UsedIsBlobs(end);
    BytesAreRowSizes(cfg.sha, end);
    forall f | f in end.tree.files ensures f in Blobs(end.tree) {
      assert f !in Temps(end.tree);
    }
    assert end.tree.files == Blobs(end.tree);
  }

  // ---------- paths and hashes under deduplication ----------

  /** Rows share a path exactly when they share a hash. */
  ghost predicate PathsAreHashes(rows: Rows) {
    forall x, y :: x in rows && y in rows ==> (rows[x].path == rows[y].path <==> rows[x].hash == rows[y].hash)
  }

  ghost predicate KeepsPlaces(a: Action) {
    a.EditAction? ==> !AsksMove(a.edit)
  }

  lemma UploadPaths(cfg: Config, s: State, input: UploadInput, id: UUID, now: int, pick: Option<UUID>)
    requires Inv(cfg.sha, s) && PathsAreHashes(s.rows) && cfg.dedup
    requires UploadTarget(input.bucket) && FreshId(s, id) && LatestWithHash(s.rows, cfg.sha(input.content), pick)
    ensures PathsAreHashes(Upload(cfg, s, input, id, now, pick).state.rows)
  {
    hide InvExcept, Shaped, Blobs, Temps, UploadTarget, PlainBucket, Home, Upload, BlobObject, Accepted, FreshId;
    if Accepted(cfg, s, input.bucket) {
      UploadInOrder(cfg, s, input, id, now, pick);
      FreshUnused(s, id);
      HomesStored(cfg.sha, s);
      var r := Upload(cfg, s, input, id, now, pick);
      if pick.None? {
        AcceptedPlain(cfg, s, input.bucket);
        HomeOfNew(cfg, input, id, now);
        forall x | x in s.rows ensures s.rows[x].path != r.result.value.path {
          SamePathHome(s.rows[x], r.result.value);
        }
      }
    } else {
      InvParts(cfg.sha, s, NOBODY);
      UploadRefused(cfg, s, input, id, now, pick);
    }
  }

  lemma PurgeRows(sha: Bytes -> string, s: State, now: int, order: seq<UUID>)
    requires Inv(sha, s) && Lists(order, Expired(s.rows, now))
    ensures PurgeExpired(s, order).state.rows == s.rows - Expired(s.rows, now)
  {
    hide InvExcept, PurgeExpired;
    PurgeLeaves(sha, s, now, order, NOBODY);
  }

  lemma StepPaths(cfg: Config, s: State, a: Action)
    requires Inv(cfg.sha, s) && PathsAreHashes(s.rows) && cfg.dedup
    requires Direct(a) && KeepsPlaces(a) && Legal(cfg, s, a)
    ensures PathsAreHashes(Step(cfg, s, a).rows)
  {
    hide Inv, UploadTarget, EditTarget, FreshId, EditBreaks, Upload, RemovePhysical, PurgeExpired, Move, BucketKey;
    match a
    case UploadAction(input, id, now, pick) => UploadPaths(cfg, s, input, id, now, pick);
    case EditAction(id, input) =>
    case DeleteAction(id) =>
    case PurgeAction(now, order) => PurgeRows(cfg.sha, s, now, order);
    case OpenAction(_) =>
  }

  /** With deduplication on from an empty store and no change of bucket, paths and hashes of
      the rows are in bijection: content is stored once. */
  lemma {:induction false} PathsOverRuns(cfg: Config, maxStorage: int, s: State, actions: seq<Action>, end: State)
    requires cfg.dedup && Inv(cfg.sha, s) && PathsAreHashes(s.rows)
    requires QuotaRun(cfg, maxStorage, s, actions, end) && forall k :: 0 <= k < |actions| ==> KeepsPlaces(actions[k])
    ensures PathsAreHashes(end.rows)
    decreases |actions|
  {
    hide Inv, Legal, Direct, Step, WithinQuota, PathsAreHashes, KeepsPlaces;
    if actions != [] {
      StepKeepsInv(cfg, s, actions[0]);
      StepPaths(cfg, s, actions[0]);
      PathsOverRuns(cfg, maxStorage, Step(cfg, s, actions[0]), actions[1..], end);
    }
  }
}
