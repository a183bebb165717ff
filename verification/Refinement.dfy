/** The directory tree against the plain map of objects the driver interface speaks of. */
module Refinement {
  import opened Wrappers
  import opened Paths
  import opened Trees

  type Objects = map<Path, Bytes>

  datatype Op =
    | PutOp(p: Path, content: Bytes)
    | DeleteOp(p: Path)
    | MoveOp(src: Path, p: Path)
    | EnsureBucketOp(p: Path)
    | RemoveTreeOp(p: Path)

  ghost predicate WellFormed(op: Op) {
    op.p != [] && (op.MoveOp? ==> op.src != [])
  }

  function TreeStep(t: Tree, op: Op): Done
    requires WellFormed(op)
  {
    match op
    case PutOp(p, content) => Write(t, p, content)
    case DeleteOp(p) => Remove(t, p)
    case MoveOp(src, p) => Rename(t, src, p)
    case EnsureBucketOp(p) => MakeParents(t, p + [""])
    case RemoveTreeOp(p) => RemoveAll(t, p)
  }

  /** An object on the way to p. */
  predicate Above(m: Objects, p: Path) {
    exists f :: f in m && f < p
  }

  /** An object below p. */
  predicate Below(m: Objects, p: Path) {
    exists f :: f in m && p < f
  }

  /** Whether the map takes the operation: places hold objects or lead to them, never both. */
  predicate Takes(m: Objects, op: Op) {
    match op
    case PutOp(p, _) => !Above(m, p) && !Below(m, p)
    case DeleteOp(p) => !Above(m, p) && !Below(m, p)
    case MoveOp(src, p) => src in m && !Above(m, p) && !Below(m, p)
    case EnsureBucketOp(p) => !Above(m, p) && p !in m
    case RemoveTreeOp(p) => !Above(m, p)
  }

  /** What the operation means for the map. */
  function MapStep(m: Objects, op: Op): Objects {
    if !Takes(m, op) then m
    else
      match op
      case PutOp(p, content) => m[p := content]
      case DeleteOp(p) => m - {p}
      case MoveOp(src, p) => (m - {src})[p := m[src]]
      case EnsureBucketOp(p) => m
      case RemoveTreeOp(p) => map f | f in m && !(p <= f) :: m[f]
  }

  ghost predicate PrefixFree(m: Objects) {
    forall f, g :: f in m && g in m ==> !(f < g)
  }

  /** A directory that leads to no object, which the map therefore cannot see. */
  predicate Bare(t: Tree, p: Path) {
    p in t.dirs && !Below(t.files, p)
  }

  /** The operations whose effect turns on a directory the map cannot see: putting or moving an
      object where such a directory is, deleting one that holds others, and moving a directory,
      unless the attempt truncates an object that was empty anyway. */
  predicate Hidden(t: Tree, op: Op) {
    match op
    case PutOp(p, _) => Bare(t, p)
    case DeleteOp(p) => Bare(t, p) && HasEntries(t, p)
    case MoveOp(src, p) =>
      if src in t.files then Bare(t, p)
      else MovesDirectory(t, src, p) && Free(t, p) && (p in t.files ==> t.files[p] != [])
    case EnsureBucketOp(_) => false
    case RemoveTreeOp(_) => false
  }

  /** The tree's step is the map's: same result, same objects. */
  ghost predicate StepAgrees(t: Tree, op: Op)
    requires WellFormed(op)
  {
    var done := TreeStep(t, op);
    (done.error.None? <==> Takes(t.files, op)) && done.tree.files == MapStep(t.files, op)
  }

  /** A directory leads to an object exactly when one is below it. */
  lemma BelowIsDirectory(t: Tree, p: Path)
    requires Valid(t) && Below(t.files, p)
    ensures p in t.dirs && HasEntries(t, p) && p !in t.files
  {
    var f :| f in t.files && p < f;
    DirsAbove(t, Parent(f), p);
    NothingBelowEmpty(t, p, f);
  }

  /** One operation on the tree is that operation on the map, result and objects alike, if and
      only if it does not turn on a directory the map cannot see. */
  lemma StepRefinesIff(t: Tree, op: Op)
    requires Valid(t) && WellFormed(op)
    ensures Valid(TreeStep(t, op).tree)
    ensures StepAgrees(t, op) <==> !Hidden(t, op)
  {
    hide StepAgrees, Hidden, Valid;
    match op
    case PutOp(p, content) => PutRefinesIff(t, p, content);
    case DeleteOp(p) => DeleteRefinesIff(t, p);
    case MoveOp(src, p) => MoveRefinesIff(t, src, p);
    case EnsureBucketOp(p) => EnsureRefines(t, p);
    case RemoveTreeOp(p) => RemoveAllRefines(t, p);
  }

  lemma PutRefinesIff(t: Tree, p: Path, content: Bytes)
    requires Valid(t) && p != []
    ensures Valid(Write(t, p, content).tree)
    ensures StepAgrees(t, PutOp(p, content)) <==> !Hidden(t, PutOp(p, content))
  {
    hide HasEntries, Write;
    WriteEffect(t, p, content);
    if Below(t.files, p) {
      BelowIsDirectory(t, p);
    }
    assert ThroughFile(t, p) <==> Above(t.files, p);
    if p in t.dirs {
      ThroughNothing(t, p);
    }
  }

  lemma DeleteRefinesIff(t: Tree, p: Path)
    requires Valid(t) && p != []
    ensures Valid(Remove(t, p).tree)
    ensures StepAgrees(t, DeleteOp(p)) <==> !Hidden(t, DeleteOp(p))
  {
    hide HasEntries, Remove;
    RemoveEffect(t, p);
    if Below(t.files, p) {
      BelowIsDirectory(t, p);
    }
    assert ThroughFile(t, p) <==> Above(t.files, p);
    assert t.files - {p} == t.files || p in t.files;
    if p in t.dirs {
      ThroughNothing(t, p);
    }
  }

  lemma MoveRefinesIff(t: Tree, src: Path, p: Path)
    requires Valid(t) && src != [] && p != []
    ensures Valid(Rename(t, src, p).tree)
    ensures StepAgrees(t, MoveOp(src, p)) <==> !Hidden(t, MoveOp(src, p))
  {
    hide HasEntries, Rename, Relocated;
    RenameEffect(t, src, p);
    if Below(t.files, p) {
      BelowIsDirectory(t, p);
    }
    assert ThroughFile(t, p) <==> Above(t.files, p);
    if p in t.dirs {
      ThroughNothing(t, p);
    }
    if p in t.files && t.files[p] == [] {
      assert t.files[p := []] == t.files;
    }
  }

  lemma EnsureRefines(t: Tree, p: Path)
    requires Valid(t) && p != []
    ensures Valid(MakeParents(t, p + [""]).tree)
    ensures StepAgrees(t, EnsureBucketOp(p)) && !Hidden(t, EnsureBucketOp(p))
  {
    MakeParentsValid(t, p + [""]);
    forall f | f in t.files ensures f < p + [""] <==> f < p || f == p {
      assert f < p + [""] ==> f == (p + [""])[..|f|] == p[..|f|];
    }
  }

  lemma RemoveAllRefines(t: Tree, p: Path)
    requires Valid(t) && p != []
    ensures Valid(RemoveAll(t, p).tree) && StepAgrees(t, RemoveTreeOp(p)) && !Hidden(t, RemoveTreeOp(p))
  {
    RemoveAllEffect(t, p);
    assert ThroughFile(t, p) <==> Above(t.files, p);
  }

  lemma MapStepPrefixFree(m: Objects, op: Op)
    requires PrefixFree(m)
    ensures PrefixFree(MapStep(m, op))
  {
    var r := MapStep(m, op);
    forall f, g | f in r && g in r ensures !(f < g) {
      if Takes(m, op) && (op.PutOp? || op.MoveOp?) {
        assert f == op.p || f in m;
        assert g == op.p || g in m;
      }
    }
  }

  ghost predicate TreeRun(t: Tree, ops: seq<Op>, results: seq<bool>, end: Tree)
    decreases |ops|
  {
    && |results| == |ops|
    && if ops == [] then t == end
       else
         && WellFormed(ops[0])
         && results[0] == TreeStep(t, ops[0]).error.None?
         && TreeRun(TreeStep(t, ops[0]).tree, ops[1..], results[1..], end)
  }

  ghost predicate MapRun(m: Objects, ops: seq<Op>, results: seq<bool>, end: Objects)
    decreases |ops|
  {
    && |results| == |ops|
    && if ops == [] then m == end
       else results[0] == Takes(m, ops[0]) && MapRun(MapStep(m, ops[0]), ops[1..], results[1..], end)
  }

  /** No operation of the run turns on a directory the map cannot see. */
  ghost predicate NothingHidden(t: Tree, ops: seq<Op>)
    decreases |ops|
  {
    ops == [] || (WellFormed(ops[0]) && !Hidden(t, ops[0]) && NothingHidden(TreeStep(t, ops[0]).tree, ops[1..]))
  }

  /** Tree and map agree at every step of the run. */
  ghost predicate Lockstep(t: Tree, ops: seq<Op>)
    decreases |ops|
  {
    ops == [] || (WellFormed(ops[0]) && StepAgrees(t, ops[0]) && Lockstep(TreeStep(t, ops[0]).tree, ops[1..]))
  }

  /** Tree and map agree at every step of a run if and only if nothing in it is hidden. */
  lemma {:induction false} LockstepIff(t: Tree, ops: seq<Op>)
    requires Valid(t)
    ensures Lockstep(t, ops) <==> NothingHidden(t, ops)
    decreases |ops|
  {
    hide TreeStep, StepAgrees, Hidden, Valid, WellFormed;
    if ops != [] && WellFormed(ops[0]) {
      StepRefinesIff(t, ops[0]);
      LockstepIff(TreeStep(t, ops[0]).tree, ops[1..]);
    }
  }

  /** Every such run of operations on the tree is a run of the same operations on the map, with
      the same results; on the way no object ever is a proper prefix of another. */
  lemma {:induction false} TreeRefinesMap(t: Tree, ops: seq<Op>, results: seq<bool>, end: Tree)
    requires Valid(t) && PrefixFree(t.files) && TreeRun(t, ops, results, end) && NothingHidden(t, ops)
    ensures Valid(end) && PrefixFree(end.files) && MapRun(t.files, ops, results, end.files)
    decreases |ops|
  {
    hide TreeStep, MapStep, Takes, Valid, PrefixFree, Hidden, WellFormed;
    if ops != [] {
      StepRefinesIff(t, ops[0]);
      MapStepPrefixFree(t.files, ops[0]);
      TreeRefinesMap(TreeStep(t, ops[0]).tree, ops[1..], results[1..], end);
    }
  }

  /** Open answers for the object the map holds. Stat and Exists do so too if and only if the
      place is not a directory, for which they succeed although the map holds nothing there. */
  lemma QueriesAgreeIff(t: Tree, bucket: string, key: string, p: Path)
    requires Valid(t) && Locate(bucket, key) == Some(p)
    ensures if p in t.files then Open(t, bucket, key) == Ok(t.files[p]) else Open(t, bucket, key).Err?
    ensures p in t.files ==> Stat(t, bucket, key) == Ok(|t.files[p]|)
    ensures (Stat(t, bucket, key).Ok? <==> p in t.files) <==> p !in t.dirs
    ensures (Exists(t, bucket, key) <==> p in t.files) <==> p !in t.dirs
  {
    hide Locate;
  }
}
