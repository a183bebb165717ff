/** The directory tree the filesystem driver works on, and what each of its operations
    does to the tree and to the objects in it. Paths are segments below the storage base. */
module Trees {
  import opened Wrappers
  import opened Paths

  newtype Byte = b: int | 0 <= b < 256
  type Bytes = seq<Byte>

  datatype StorageError = InvalidPath | NotExist | NotDirectory | IsDirectory | NotEmpty | ReadFailed

  datatype Tree = Tree(dirs: set<Path>, files: map<Path, Bytes>)

  /** What an operation leaves behind, and the error it returned if any. */
  datatype Done = Done(tree: Tree, error: Option<StorageError>)

  function Parent(p: Path): Path
    requires p != []
  {
    p[..|p| - 1]
  }

  function Last(p: Path): string
    requires p != []
  {
    p[|p| - 1]
  }

  function Ancestors(p: Path): (a: set<Path>)
    ensures forall q :: q in a <==> q < p
  {
    assert forall q :: q < p ==> p[..|q|] == q;
    set i | 0 <= i < |p| :: p[..i]
  }

  ghost predicate Valid(t: Tree) {
    && [] in t.dirs
    && t.dirs !! t.files.Keys
    && (forall d :: d in t.dirs && d != [] ==> Parent(d) in t.dirs)
    && (forall f :: f in t.files ==> f != [] && Parent(f) in t.dirs)
  }

  predicate HasEntries(t: Tree, d: Path) {
    || (exists e :: e in t.dirs && e != [] && Parent(e) == d)
    || (exists f :: f in t.files && f != [] && Parent(f) == d)
  }

  /** Some proper prefix of p is an object, so nothing can live at p. */
  predicate ThroughFile(t: Tree, p: Path) {
    exists f :: f in t.files && f < p
  }

  /** `os.MkdirAll(filepath.Dir(p))`. */
  function MakeParents(t: Tree, p: Path): Done {
    if ThroughFile(t, p) then Done(t, Some(NotDirectory))
    else Done(t.(dirs := t.dirs + Ancestors(p)), None)
  }

  /** Put: create the parents, then the file with its bytes. */
  function Write(t: Tree, p: Path, content: Bytes): Done
    requires p != []
  {
    var made := MakeParents(t, p);
    if made.error.Some? then made
    else if p in made.tree.dirs then Done(made.tree, Some(IsDirectory))
    else Done(made.tree.(files := made.tree.files[p := content]), None)
  }

  /** k rounds of pruneEmptyParents starting at directory d. */
  function Prune(t: Tree, d: Path, k: nat): Tree
    decreases k
  {
    if k == 0 || d == [] || d !in t.dirs || HasEntries(t, d) then t
    else Prune(t.(dirs := t.dirs - {d}), Parent(d), k - 1)
  }

  /** pruneEmptyParents(p): at most one round a level. */
  function PruneParents(t: Tree, p: Path): Tree
    requires p != []
  {
    Prune(t, Parent(p), |p| - 1)
  }

  /** `os.Remove`, which also removes an empty directory. */
  function Unlink(t: Tree, p: Path): Done {
    if p in t.files then Done(t.(files := t.files - {p}), None)
    else if p in t.dirs then
      if HasEntries(t, p) then Done(t, Some(NotEmpty)) else Done(t.(dirs := t.dirs - {p}), None)
    else if ThroughFile(t, p) then Done(t, Some(NotDirectory))
    else Done(t, Some(NotExist))
  }

  /** Delete: a missing object is not an error, and empty parents are pruned either way. */
  function Remove(t: Tree, p: Path): Done
    requires p != []
  {
    var gone := Unlink(t, p);
    if gone.error.Some? && gone.error != Some(NotExist) then gone
    else Done(PruneParents(gone.tree, p), None)
  }

  /** Nothing lives at p but perhaps an object, and no object lies on the way to it. */
  predicate Free(t: Tree, p: Path) {
    !ThroughFile(t, p) && p !in t.dirs
  }

  /** Where a path ends up when everything at src and below it moves to dst. */
  function Forth(p: Path, src: Path, dst: Path): Path {
    if src <= p then dst + p[|src|..] else p
  }

  /** The objects after everything at src and below it moved to dst, where nothing was. */
  function Relocated(files: map<Path, Bytes>, src: Path, dst: Path): map<Path, Bytes> {
    map f | f in (set g | g in files :: Forth(g, src, dst)) && Forth(f, dst, src) in files :: files[Forth(f, dst, src)]
  }

  /** A directory renamed: it and everything below it move. */
  function MoveSubtree(t: Tree, src: Path, dst: Path): Tree {
    Tree(set d | d in t.dirs :: Forth(d, src, dst), Relocated(t.files, src, dst))
  }

  /** Move. A file is renamed over whatever object is at dst, and a directory to a place where
      nothing is, unless that lies inside the directory; neither is renamed over a directory.
      When a directory cannot be renamed, the fallback creates dst, truncating the object
      there, and then fails to read the directory. */
  function Rename(t: Tree, src: Path, dst: Path): Done
    requires src != [] && dst != []
  {
    var made := MakeParents(t, dst);
    if made.error.Some? then made
    else if dst in made.tree.dirs then
      Done(made.tree, Some(if src in t.files || src in made.tree.dirs then IsDirectory else NotExist))
    else if src in t.files then
      Done(PruneParents(made.tree.(files := (t.files - {src})[dst := t.files[src]]), src), None)
    else if src !in made.tree.dirs then Done(made.tree, Some(NotExist))
    else if src < dst || dst in t.files then Done(made.tree.(files := t.files[dst := []]), Some(IsDirectory))
    else Done(PruneParents(MoveSubtree(made.tree, src, dst), src), None)
  }

  /** RemoveTree: everything at p and below it, by path component. */
  function RemoveAll(t: Tree, p: Path): Done {
    if ThroughFile(t, p) then Done(t, Some(NotDirectory))
    else Done(Tree(set d | d in t.dirs && !(p <= d), map f | f in t.files && !(p <= f) :: t.files[f]), None)
  }

  // ---------- the operations as the driver offers them ----------

  /** content is what the reader delivers; broken says that it then fails instead of ending. */
  function Put(t: Tree, bucket: string, key: string, content: Bytes, broken: bool := false): Done {
    var at := Locate(bucket, key);
    if at.None? then Done(t, Some(InvalidPath))
    else
      var done := Write(t, at.value, content);
      if broken && done.error.None? then Done(done.tree, Some(ReadFailed)) else done
  }

  function Delete(t: Tree, bucket: string, key: string): Done {
    var at := Locate(bucket, key);
    if at.None? then Done(t, Some(InvalidPath)) else Remove(t, at.value)
  }

  function Move(t: Tree, srcBucket: string, srcKey: string, dstBucket: string, dstKey: string): Done {
    var src, dst := Locate(srcBucket, srcKey), Locate(dstBucket, dstKey);
    if src.None? || dst.None? then Done(t, Some(InvalidPath)) else Rename(t, src.value, dst.value)
  }

  function RemoveTree(t: Tree, bucket: string, prefix: string): Done {
    var at := Locate(bucket, prefix);
    if at.None? then Done(t, Some(InvalidPath)) else RemoveAll(t, at.value)
  }

  /** Open followed by reading to the end; a directory opens but cannot be read. */
  function ReadAt(t: Tree, at: Option<Path>): Result<Bytes, StorageError> {
    if at.None? then Err(InvalidPath)
    else if at.value in t.files then Ok(t.files[at.value])
    else if at.value in t.dirs then Err(IsDirectory)
    else Err(NotExist)
  }

  function Open(t: Tree, bucket: string, key: string): Result<Bytes, StorageError> {
    ReadAt(t, Locate(bucket, key))
  }

  /** Exists is a successful stat, which a directory passes too. */
  predicate Exists(t: Tree, bucket: string, key: string) {
    var at := Locate(bucket, key);
    at.Some? && (at.value in t.files || at.value in t.dirs)
  }

  /** The size Stat reports; 0 stands for whatever a directory reports. */
  function Stat(t: Tree, bucket: string, key: string): Result<nat, StorageError> {
    var at := Locate(bucket, key);
    if at.None? then Err(InvalidPath)
    else if at.value in t.files then Ok(|t.files[at.value]|)
    else if at.value in t.dirs then Ok(0)
    else Err(NotExist)
  }

  /** EnsureBucket as the driver's source has it: it resolves the bucket with an empty key. */
  function EnsureBucketAsWritten(t: Tree, bucket: string): Done {
    var at := Locate(bucket, "");
    if at.None? then Done(t, Some(InvalidPath)) else MakeParents(t, at.value + [""])
  }

  /** EnsureBucket as the driver interface promises it: the bucket's directory exists afterwards. */
  function EnsureBucketAsPromised(t: Tree, bucket: string): Done {
    if !ValidComponent(bucket) then Done(t, Some(InvalidPath)) else MakeParents(t, Segments(bucket) + [""])
  }

  // ---------- tree facts ----------

  lemma PutThenRemove(files: map<Path, Bytes>, p: Path, content: Bytes)
    requires p !in files
    ensures files[p := content] - {p} == files
  {
  }

  /** Every ancestor of a directory is a directory. */
  lemma {:induction false} DirsAbove(t: Tree, d: Path, q: Path)
    requires Valid(t) && d in t.dirs && q <= d
    ensures q in t.dirs
    decreases |d|
  {
    if q != d {
      DirsAbove(t, Parent(d), q);
    }
  }

  /** An object is never a proper prefix of another object or of a directory. */
  lemma ObjectsPrefixFree(t: Tree, f: Path, g: Path)
    requires Valid(t) && f in t.files && (g in t.files || g in t.dirs)
    ensures !(f < g)
  {
    if f < g {
      if g in t.dirs {
        DirsAbove(t, g, f);
      } else {
        DirsAbove(t, Parent(g), f);
      }
    }
  }

  lemma ThroughNothing(t: Tree, p: Path)
    requires Valid(t) && (p in t.files || p in t.dirs)
    ensures !ThroughFile(t, p)
  {
    if ThroughFile(t, p) {
      var f :| f in t.files && f < p;
      ObjectsPrefixFree(t, f, p);
    }
  }

  lemma MakeParentsValid(t: Tree, p: Path)
    requires Valid(t)
    ensures Valid(MakeParents(t, p).tree)
  {
    var made := MakeParents(t, p);
    if made.error.None? {
      forall d | d in made.tree.dirs && d != [] ensures Parent(d) in made.tree.dirs {
        if d !in t.dirs {
          assert Parent(d) < p;
        }
      }
    }
  }

  /** Writing stores exactly the given bytes at exactly that place, unless an object lies on the
      way to it or it is a directory; then nothing changes. */
  lemma WriteEffect(t: Tree, p: Path, content: Bytes)
    requires Valid(t) && p != []
    ensures var done := Write(t, p, content);
      && Valid(done.tree)
      && (done.error.None? <==> !ThroughFile(t, p) && p !in t.dirs)
      && (done.error.None? ==> done.tree == Tree(t.dirs + Ancestors(p), t.files[p := content]))
      && (done.error.Some? ==> done.tree == t)
  {
    MakeParentsValid(t, p);
    if p in t.dirs {
      ThroughNothing(t, p);
      forall q | q < p ensures q in t.dirs {
        DirsAbove(t, p, q);
      }
      assert t.dirs + Ancestors(p) == t.dirs;
    }
    assert p !in Ancestors(p);
    assert Parent(p) < p;
  }

  /** Put answers with an error exactly when the key is rejected, its place is not free or the
      reader fails. Only in the last case is anything left behind: whatever was read until then,
      in place of the object that was there. */
  lemma PutEffect(t: Tree, bucket: string, key: string, content: Bytes, broken: bool)
    requires Valid(t)
    ensures var done, at := Put(t, bucket, key, content, broken), Locate(bucket, key);
      && Valid(done.tree)
      && (done.error.None? <==> at.Some? && Free(t, at.value) && !broken)
      && (at.Some? && Free(t, at.value) ==>
            && done.tree == Tree(t.dirs + Ancestors(at.value), t.files[at.value := content])
            && done.error == if broken then Some(ReadFailed) else None)
      && (at.None? || !Free(t, at.value) ==> done.tree == t)
  {
    hide Locate, Write, Valid;
    var at := Locate(bucket, key);
    if at.Some? {
      WriteEffect(t, at.value, content);
    }
  }

  /** Pruning never touches a file or the base. */
  lemma {:induction false} PruneEffect(t: Tree, d: Path, k: nat)
    requires Valid(t)
    ensures Valid(Prune(t, d, k))
    ensures Prune(t, d, k).files == t.files && Prune(t, d, k).dirs <= t.dirs
    decreases k
  {
    if !(k == 0 || d == [] || d !in t.dirs || HasEntries(t, d)) {
      var next := t.(dirs := t.dirs - {d});
      assert Valid(next);
      PruneEffect(next, Parent(d), k - 1);
    }
  }

  /** A pruned directory is d or above it, and no object lies below it. */
  lemma {:induction false} PruneOnlyEmpty(t: Tree, d: Path, k: nat, e: Path)
    requires Valid(t) && e in t.dirs && e !in Prune(t, d, k).dirs
    ensures e != [] && e <= d && forall f :: f in t.files ==> !(e <= f)
    decreases k
  {
    var next := t.(dirs := t.dirs - {d});
    if e == d {
      forall f | f in t.files ensures !(d <= f) {
        if d <= f {
          NothingBelowEmpty(t, d, f);
        }
      }
    } else {
      assert Valid(next);
      PruneOnlyEmpty(next, Parent(d), k - 1, e);
      assert e == Parent(d)[..|e|] == d[..|e|];
    }
  }

  /** A directory without entries has nothing below it. */
  lemma NothingBelowEmpty(t: Tree, d: Path, f: Path)
    requires Valid(t) && d in t.dirs && f in t.files && d <= f
    ensures HasEntries(t, d)
  {
    assert d != f;
    var e := f[..|d| + 1];
    assert Parent(e) == d;
    if e != f {
      DirsAbove(t, Parent(f), e);
    }
  }

  lemma EntriesWithoutDir(t: Tree, d: Path, e: Path)
    requires d != [] && e != Parent(d) && HasEntries(t, e)
    ensures HasEntries(t.(dirs := t.dirs - {d}), e)
  {
    if x :| x in t.dirs && x != [] && Parent(x) == e {
      assert x in t.dirs - {d};
    }
  }

  lemma EntriesWithoutFile(t: Tree, p: Path, e: Path)
    requires p != [] && e != Parent(p) && HasEntries(t, e)
    ensures HasEntries(t.(files := t.files - {p}), e)
  {
    if x :| x in t.dirs && x != [] && Parent(x) == e {
    } else {
      var y :| y in t.files && y != [] && Parent(y) == e;
      assert y in t.files - {p};
    }
  }

  lemma MoreEntries(t: Tree, u: Tree, e: Path)
    requires HasEntries(t, e) && t.dirs <= u.dirs && t.files.Keys <= u.files.Keys
    ensures HasEntries(u, e)
  {
    if x :| x in t.dirs && x != [] && Parent(x) == e {
      assert x in u.dirs;
    } else {
      var y :| y in t.files && y != [] && Parent(y) == e;
      assert y in u.files;
    }
  }

  /** Pruning leaves no directory empty that was not allowed to be. */
  lemma {:induction false} PruneEmpties(t: Tree, d: Path, k: nat, allowed: set<Path>)
    requires k >= |d|
    requires forall e :: e in t.dirs && e != [] && e != d && !HasEntries(t, e) ==> e in allowed
    ensures forall e :: e in Prune(t, d, k).dirs && e != [] && !HasEntries(Prune(t, d, k), e) ==> e in allowed
    decreases k
  {
    if !(k == 0 || d == [] || d !in t.dirs || HasEntries(t, d)) {
      var next := t.(dirs := t.dirs - {d});
      forall e | e in next.dirs && e != [] && e != Parent(d) && !HasEntries(next, e) ensures e in allowed {
        if HasEntries(t, e) {
          EntriesWithoutDir(t, d, e);
        }
      }
      PruneEmpties(next, Parent(d), k - 1, allowed);
    }
  }

  /** Delete removes exactly that object. It fails only when an object lies on the way, or
      when the key is a directory that holds something; then nothing changes. */
  lemma RemoveEffect(t: Tree, p: Path)
    requires Valid(t) && p != []
    ensures var done := Remove(t, p);
      && Valid(done.tree)
      && (done.error.None? <==> !ThroughFile(t, p) && (p in t.dirs ==> !HasEntries(t, p)))
      && (done.error.None? ==> done.tree.files == t.files - {p} && done.tree.dirs <= t.dirs)
      && (done.error.Some? ==> done.tree == t)
  {
    UnlinkEffect(t, p);
    PruneEffect(Unlink(t, p).tree, Parent(p), |p| - 1);
  }

  lemma UnlinkEffect(t: Tree, p: Path)
    requires Valid(t) && p != []
    ensures var gone := Unlink(t, p);
      && Valid(gone.tree) && gone.tree.files == t.files - {p} && gone.tree.dirs <= t.dirs
      && (gone.error.None? || gone.error == Some(NotExist)
          <==> !ThroughFile(t, p) && (p in t.dirs ==> !HasEntries(t, p)))
      && (gone.error.Some? ==> gone.tree == t)
  {
    if p in t.files || p in t.dirs {
      ThroughNothing(t, p);
    }
    if p !in t.files {
      assert t.files - {p} == t.files;
    }
  }

  /** Deleting an object leaves no directory empty that was not empty before. */
  lemma RemoveLeavesNoEmpty(t: Tree, p: Path)
    requires Valid(t) && p in t.files
    ensures var after := Remove(t, p).tree;
      forall e :: e in after.dirs && e != [] && !HasEntries(after, e) ==> e in t.dirs && !HasEntries(t, e)
  {
    var gone := t.(files := t.files - {p});
    var allowed := set e | e in t.dirs && !HasEntries(t, e);
    forall e | e in gone.dirs && e != [] && e != Parent(p) && !HasEntries(gone, e) ensures e in allowed {
      if HasEntries(t, e) {
        EntriesWithoutFile(t, p, e);
      }
    }
    PruneEmpties(gone, Parent(p), |p| - 1, allowed);
  }

  /** A directory with nothing below it but the way down to d goes when d is pruned. */
  lemma {:induction false} PruneTakesAll(t: Tree, d: Path, k: nat, top: Path)
    requires Valid(t) && d in t.dirs && top <= d && top != [] && k >= |d|
    requires forall e :: e in t.dirs && top <= e ==> e <= d
    requires forall f :: f in t.files ==> !(top <= f)
    ensures top !in Prune(t, d, k).dirs
    decreases k
  {
    hide HasEntries, Valid;
    NoEntriesAtEnd(t, d, top);
    var next := t.(dirs := t.dirs - {d});
    LeafRemoved(t, d);
    if d == top {
      PruneEffect(next, Parent(d), k - 1);
    } else {
      ShorterPrefix(top, d);
      forall e | e in next.dirs && top <= e ensures e <= Parent(d) {
        ShorterPrefix(e, d);
      }
      PruneTakesAll(next, Parent(d), k - 1, top);
    }
  }

  lemma ShorterPrefix(e: Path, d: Path)
    requires e <= d && e != d
    ensures d != [] && e <= Parent(d)
  {
    assert |e| == |d| ==> e == d;
  }

  lemma LeafRemoved(t: Tree, d: Path)
    requires Valid(t) && d in t.dirs && d != [] && !HasEntries(t, d)
    ensures Valid(t.(dirs := t.dirs - {d})) && Parent(d) in t.dirs && Parent(d) != d
  {
  }

  lemma NoEntriesAtEnd(t: Tree, d: Path, top: Path)
    requires top <= d
    requires forall e :: e in t.dirs && top <= e ==> e <= d
    requires forall f :: f in t.files ==> !(top <= f)
    ensures !HasEntries(t, d)
  {
    forall e | e in t.dirs && e != [] ensures Parent(e) != d {
      assert Parent(e) == d ==> top <= e;
    }
    forall f | f in t.files && f != [] ensures Parent(f) != d {
      assert Parent(f) == d ==> top <= f;
    }
  }

  /** Putting an object in a new place and deleting it again leaves no trace; at most it
      removes directories that were empty. */
  lemma PutThenDeleteTree(t: Tree, p: Path, content: Bytes)
    requires Valid(t) && p != [] && Free(t, p) && p !in t.files
    ensures var done := Remove(Write(t, p, content).tree, p);
      done.error.None? && Valid(done.tree) && done.tree.files == t.files && done.tree.dirs <= t.dirs
  {
    hide Prune, HasEntries;
    WriteEffect(t, p, content);
    var put := Write(t, p, content).tree;
    RemoveEffect(put, p);
    PutThenRemove(t.files, p, content);
    var gone := put.(files := t.files);
    assert Unlink(put, p).tree == gone;
    UnlinkEffect(put, p);
    forall q | q < p && q !in t.dirs ensures q !in Remove(put, p).tree.dirs {
      NewWayPruned(t, gone, p, q);
    }
  }

  lemma NewWayPruned(t: Tree, gone: Tree, p: Path, q: Path)
    requires Valid(t) && Valid(gone) && p != [] && gone == t.(dirs := t.dirs + Ancestors(p)) && q < p && q !in t.dirs
    ensures q !in PruneParents(gone, p).dirs
  {
    assert Parent(p) < p && q <= Parent(p);
    NothingBelowFree(t, q);
    assert q !in t.files;
    forall e | e in gone.dirs && q <= e ensures e <= Parent(p) {
      assert e in Ancestors(p);
    }
    PruneTakesAll(gone, Parent(p), |p| - 1, q);
  }

  /** A place where an object is stored has nothing else in the way. */
  lemma StoredFree(t: Tree, p: Path)
    requires Valid(t) && p in t.files
    ensures Free(t, p)
  {
    ThroughNothing(t, p);
  }

  /** Nothing lies below a place that is not a directory. */
  lemma NothingBelowFree(t: Tree, p: Path)
    requires Valid(t) && p !in t.dirs
    ensures forall d :: d in t.dirs ==> !(p <= d)
    ensures forall f :: f in t.files && f != p ==> !(p <= f)
  {
    forall d | d in t.dirs ensures !(p <= d) {
      if p <= d {
        DirsAbove(t, d, p);
      }
    }
    forall f | f in t.files && f != p ensures !(p <= f) {
      if p <= f {
        FileBelow(t, p, f);
      }
    }
  }

  lemma FileBelow(t: Tree, p: Path, f: Path)
    requires Valid(t) && f in t.files && p < f
    ensures p in t.dirs
  {
    DirsAbove(t, Parent(f), p);
  }

  lemma ForthBack(p: Path, src: Path, dst: Path)
    requires !(dst <= p)
    ensures Forth(Forth(p, src, dst), dst, src) == p
  {
    if src <= p {
      var q := dst + p[|src|..];
      assert q[|dst|..] == p[|src|..];
      assert src + p[|src|..] == p;
    }
  }

  lemma ForthParent(p: Path, src: Path, dst: Path)
    requires p != [] && src != [] && dst != [] && p != src
    ensures Forth(p, src, dst) != [] && Parent(Forth(p, src, dst)) == Forth(Parent(p), src, dst)
  {
    if src <= p {
      assert src <= Parent(p);
      assert Parent(dst + p[|src|..]) == dst + Parent(p)[|src|..];
    } else {
      assert src <= Parent(p) ==> src <= p;
    }
  }

  lemma ParentStays(src: Path, dst: Path)
    requires src != []
    ensures Forth(Parent(src), src, dst) == Parent(src)
  {
  }

  /** The objects of a moved directory, read from where they were. */
  lemma RelocatedAt(files: map<Path, Bytes>, src: Path, dst: Path)
    requires forall f :: f in files ==> !(dst <= f)
    ensures forall f :: f in files ==>
      Forth(f, src, dst) in Relocated(files, src, dst) && Relocated(files, src, dst)[Forth(f, src, dst)] == files[f]
    ensures forall g :: g in Relocated(files, src, dst) ==> exists f :: f in files && Forth(f, src, dst) == g
  {
    forall f | f in files ensures Forth(Forth(f, src, dst), dst, src) == f {
      ForthBack(f, src, dst);
    }
  }

  lemma MoveSubtreeValid(t: Tree, src: Path, dst: Path)
    requires Valid(t) && src in t.dirs && src != [] && dst != [] && !(src <= dst)
    requires dst !in t.dirs && dst !in t.files && Parent(dst) in t.dirs
    ensures Valid(MoveSubtree(t, src, dst))
  {
    hide Relocated, Forth;
    var moved := MoveSubtree(t, src, dst);
    NothingBelowFree(t, dst);
    RelocatedAt(t.files, src, dst);
    BaseStays(src, dst);
    assert Forth([], src, dst) in moved.dirs;
    forall d | d in moved.dirs && d != [] ensures Parent(d) in moved.dirs {
      var p :| p in t.dirs && Forth(p, src, dst) == d;
      MovedParent(t, p, src, dst);
    }
    forall f | f in moved.files ensures f != [] && Parent(f) in moved.dirs && f !in moved.dirs {
      var p :| p in t.files && Forth(p, src, dst) == f;
      ForthParent(p, src, dst);
      ForthBack(p, src, dst);
      forall q | q in t.dirs ensures Forth(q, src, dst) != f {
        ForthBack(q, src, dst);
      }
    }
  }

  lemma BaseStays(src: Path, dst: Path)
    requires src != [] && dst != [] && !(src <= dst)
    ensures Forth([], src, dst) == [] && Forth(Parent(dst), src, dst) == Parent(dst) && Forth(src, src, dst) == dst
  {
    assert src <= Parent(dst) ==> src <= dst;
  }

  lemma MovedParent(t: Tree, p: Path, src: Path, dst: Path)
    requires Valid(t) && p in t.dirs && Forth(p, src, dst) != [] && src != [] && dst != [] && !(src <= dst)
    requires Parent(dst) in t.dirs
    ensures exists q :: q in t.dirs && Forth(q, src, dst) == Parent(Forth(p, src, dst))
  {
    hide Forth;
    BaseStays(src, dst);
    if p == src {
      assert Forth(Parent(dst), src, dst) == Parent(Forth(p, src, dst));
    } else {
      assert p != [];
      ForthParent(p, src, dst);
      assert Parent(p) in t.dirs;
    }
  }

  /** There is a directory to be moved from src, at the latest once the parents of dst are made. */
  predicate MovesDirectory(t: Tree, src: Path, dst: Path) {
    src !in t.files && (src in t.dirs || src < dst)
  }

  /** Move relocates exactly that object, or the whole directory. A failed one changes no object,
      except that a directory which cannot be renamed to a free place leaves an empty object there. */
  lemma RenameEffect(t: Tree, src: Path, dst: Path)
    requires Valid(t) && src != [] && dst != []
    ensures var done := Rename(t, src, dst);
      && Valid(done.tree)
      && (done.error.None? <==>
            && Free(t, dst)
            && (src in t.files || (src in t.dirs && !(src < dst) && dst !in t.files)))
      && done.tree.files
         == (if done.error.None? then
               if src in t.files then (t.files - {src})[dst := t.files[src]] else Relocated(t.files, src, dst)
             else if Free(t, dst) && MovesDirectory(t, src, dst) then t.files[dst := []]
             else t.files)
      && (!MovesDirectory(t, src, dst) ==> done.tree.dirs <= t.dirs + Ancestors(dst))
      && (!Free(t, dst) ==> done.tree == t)
  {
    hide Relocated, Forth, HasEntries;
    MakeParentsValid(t, dst);
    var made := MakeParents(t, dst).tree;
    assert dst !in Ancestors(dst);
    if ThroughFile(t, dst) {
    } else if dst in t.dirs {
      forall q | q < dst ensures q in t.dirs {
        DirsAbove(t, dst, q);
      }
      assert t.dirs + Ancestors(dst) == t.dirs;
    } else {
      assert Parent(dst) < dst;
      if src in t.files {
        var moved := made.(files := (t.files - {src})[dst := t.files[src]]);
        assert Valid(moved);
        PruneEffect(moved, Parent(src), |src| - 1);
      } else if src !in made.dirs {
      } else if src < dst || dst in t.files {
        assert Valid(made.(files := t.files[dst := []]));
      } else {
        assert src <= dst ==> src < dst || src == dst;
        MoveSubtreeValid(made, src, dst);
        PruneEffect(MoveSubtree(made, src, dst), Parent(src), |src| - 1);
      }
    }
  }

  /** A successful Move leaves no directory empty that was not empty before it moved, if it did. */
  lemma RenameLeavesNoEmpty(t: Tree, src: Path, dst: Path)
    requires Valid(t) && src != [] && dst != [] && Rename(t, src, dst).error.None?
    ensures var after := Rename(t, src, dst).tree;
      forall e :: e in after.dirs && e != [] && !HasEntries(after, e) ==>
        exists d :: d in t.dirs && !HasEntries(t, d) && e == Forth(d, src, dst)
  {
    hide Relocated;
    RenameEffect(t, src, dst);
    var made := MakeParents(t, dst).tree;
    if src in t.files {
      RenameFileLeavesNoEmpty(t, made, src, dst);
    } else {
      assert src <= dst ==> src < dst || src == dst;
      RenameDirectoryLeavesNoEmpty(t, made, src, dst);
    }
  }

  lemma RenameFileLeavesNoEmpty(t: Tree, made: Tree, src: Path, dst: Path)
    requires Valid(t) && src in t.files && dst != [] && Free(t, dst) && made == t.(dirs := t.dirs + Ancestors(dst))
    ensures var after := PruneParents(made.(files := (t.files - {src})[dst := t.files[src]]), src);
      forall e :: e in after.dirs && e != [] && !HasEntries(after, e) ==>
        exists d :: d in t.dirs && !HasEntries(t, d) && e == Forth(d, src, dst)
  {
    var moved := made.(files := (t.files - {src})[dst := t.files[src]]);
    var allowed := set e | e in t.dirs && !HasEntries(t, e);
    forall e | e in moved.dirs && e != [] && e != Parent(src) && !HasEntries(moved, e) ensures e in allowed {
      if e < dst {
        EntryTowards(moved, e, dst);
      } else if HasEntries(t, e) {
        EntriesWithoutFile(t, src, e);
        MoreEntries(t.(files := t.files - {src}), moved, e);
      }
    }
    PruneEmpties(moved, Parent(src), |src| - 1, allowed);
    forall e | e in allowed ensures e == Forth(e, src, dst) {
      NothingBelowFile(t, src, e);
    }
  }

  lemma NothingBelowFile(t: Tree, f: Path, d: Path)
    requires Valid(t) && f in t.files && d in t.dirs
    ensures !(f <= d)
  {
    ObjectsPrefixFree(t, f, d);
    assert f <= d ==> f < d || f == d;
  }

  lemma RenameDirectoryLeavesNoEmpty(t: Tree, made: Tree, src: Path, dst: Path)
    requires Valid(t) && src in t.dirs && src != [] && dst != [] && !(src <= dst) && Free(t, dst) && dst !in t.files
    requires made == t.(dirs := t.dirs + Ancestors(dst))
    ensures var after := PruneParents(MoveSubtree(made, src, dst), src);
      forall e :: e in after.dirs && e != [] && !HasEntries(after, e) ==>
        exists d :: d in t.dirs && !HasEntries(t, d) && e == Forth(d, src, dst)
  {
    hide HasEntries, Forth, Relocated;
    var moved := MoveSubtree(made, src, dst);
    var allowed := set e | e in t.dirs && !HasEntries(t, e) :: Forth(e, src, dst);
    forall e | e in moved.dirs && e != [] && e != Parent(src) && !HasEntries(moved, e) ensures e in allowed {
      var d :| d in made.dirs && Forth(d, src, dst) == e;
      if d < dst {
        MovedTowards(made, src, dst, d);
      } else if HasEntries(t, d) {
        MoreEntries(t, made, d);
        EntriesMove(made, src, dst, d);
      }
    }
    PruneEmpties(moved, Parent(src), |src| - 1, allowed);
  }

  /** A directory on the way to the new place has an entry after the move. */
  lemma MovedTowards(made: Tree, src: Path, dst: Path, d: Path)
    requires Valid(made) && src in made.dirs && !(src <= dst) && d < dst && Ancestors(dst) <= made.dirs
    ensures HasEntries(MoveSubtree(made, src, dst), Forth(d, src, dst))
  {
    var x := dst[..|d| + 1];
    assert Parent(x) == d && Forth(d, src, dst) == d;
    if x == dst {
      assert Forth(src, src, dst) == dst;
    } else {
      assert x < dst && Forth(x, src, dst) == x;
    }
  }

  /** A directory keeps its entries when it, or the directory around it, moves. */
  lemma EntriesMove(t: Tree, src: Path, dst: Path, d: Path)
    requires Valid(t) && src != [] && dst != [] && HasEntries(t, d) && Forth(d, src, dst) != Parent(src)
    requires dst !in t.dirs && dst !in t.files
    ensures HasEntries(MoveSubtree(t, src, dst), Forth(d, src, dst))
  {
    hide Valid, Relocated, Forth;
    NothingBelowFree(t, dst);
    RelocatedAt(t.files, src, dst);
    ParentStays(src, dst);
    if x :| x in t.dirs && x != [] && Parent(x) == d {
      ForthParent(x, src, dst);
      assert Forth(x, src, dst) in MoveSubtree(t, src, dst).dirs;
    } else {
      var f :| f in t.files && f != [] && Parent(f) == d;
      ForthParent(f, src, dst);
    }
  }

  /** A directory on the way to an object has an entry. */
  lemma EntryTowards(t: Tree, e: Path, f: Path)
    requires e < f && f in t.files && Ancestors(f) <= t.dirs
    ensures HasEntries(t, e)
  {
    var x := f[..|e| + 1];
    assert Parent(x) == e;
    assert x == f || x < f;
  }

  /** RemoveTree removes exactly the objects whose segments start with p, so a sibling whose
      name merely starts with the same letters stays. */
  lemma RemoveAllEffect(t: Tree, p: Path)
    requires Valid(t) && p != []
    ensures var done := RemoveAll(t, p);
      && Valid(done.tree) && done.tree.dirs <= t.dirs
      && (done.error.None? ==> forall f :: f in done.tree.files <==> f in t.files && !(p <= f))
      && (done.error.Some? ==> done.tree == t && forall f :: f in t.files ==> !(p <= f))
      && (forall f :: f in done.tree.files ==> f in t.files && done.tree.files[f] == t.files[f])
  {
    if ThroughFile(t, p) {
      var g :| g in t.files && g < p;
      forall f | f in t.files ensures !(p <= f) {
        ObjectsPrefixFree(t, g, f);
      }
    }
  }

  /** As the driver is written, EnsureBucket rejects every bucket. */
  lemma EnsureBucketAlwaysFails(t: Tree, bucket: string)
    ensures EnsureBucketAsWritten(t, bucket) == Done(t, Some(InvalidPath))
  {
    assert Segments("") == [];
    AcceptedSegments("");
  }
}
