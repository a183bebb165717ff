/** Lexical paths: `filepath.Clean` as a fold over segments, the driver's checks
    on buckets and keys, and the splitting of a stored path. */
module Paths {
  import opened Wrappers
  import opened Text

  /** A path below the storage base, one entry a segment. */
  type Path = seq<string>

  predicate IsAbs(p: string) {
    p != "" && p[0] == '/'
  }

  /** What `filepath.Clean` does with the next segment of a path. */
  function Push(stack: Path, rooted: bool, part: string): Path {
    if part == "" || part == "." then stack
    else if part != ".." then stack + [part]
    else if stack != [] && stack[|stack| - 1] != ".." then stack[..|stack| - 1]
    else if rooted then stack
    else stack + [".."]
  }

  function Fold(stack: Path, rooted: bool, parts: seq<string>): Path
    decreases |parts|
  {
    if parts == [] then stack else Fold(Push(stack, rooted, parts[0]), rooted, parts[1..])
  }

  /** The segments of a cleaned path. */
  function Segments(p: string): Path {
    Fold([], IsAbs(p), Split(p, '/'))
  }

  /** `filepath.Clean`. */
  function Clean(p: string): string {
    var segs := Segments(p);
    if IsAbs(p) then (if segs == [] then "/" else "/" + Join(segs, '/'))
    else if segs == [] then "." else Join(segs, '/')
  }

  /** `filepath.Abs` in the working directory cwd. */
  function Abs(cwd: string, p: string): string {
    if IsAbs(p) then Clean(p) else Clean(cwd + "/" + p)
  }

  function CommonPrefix(a: Path, b: Path): (n: nat)
    ensures n <= |a| && n <= |b| && a[..n] == b[..n]
    ensures n < |a| && n < |b| ==> a[n] != b[n]
  {
    if a == [] || b == [] || a[0] != b[0] then 0 else 1 + CommonPrefix(a[1..], b[1..])
  }

  /** The segments of `filepath.Rel` for two clean absolute paths. */
  function Rel(base: Path, target: Path): Path {
    var n := CommonPrefix(base, target);
    seq(|base| - n, _ => "..") + target[n..]
  }

  /** ensureInside: the target made absolute, unless its relative path climbs out of base. */
  function EnsureInside(cwd: string, base: string, target: string): Option<string> {
    var realBase, realTarget := Abs(cwd, base), Abs(cwd, target);
    var rel := Rel(Segments(realBase), Segments(realTarget));
    if rel != [] && rel[0] == ".." then None else Some(realTarget)
  }

  /** validateRelativePathComponent. */
  predicate ValidComponent(value: string) {
    var clean := Clean(value);
    && value != "" && clean != "." && clean != ".." && !IsAbs(value)
    && forall part :: part in Split(clean, '/') ==> part != "" && part != "." && part != ".."
  }

  /** What `filepath.Join` cleans: it skips an empty base. */
  function Joined(base: string, bucket: string, key: string): string {
    if base == "" then bucket + "/" + key else base + "/" + bucket + "/" + key
  }

  /** resolve, on the strings the driver handles; base is the configured storage path. */
  function Resolve(cwd: string, base: string, bucket: string, key: string): Option<string> {
    if !ValidComponent(bucket) || !ValidComponent(key) then None
    else EnsureInside(cwd, base, Clean(Joined(base, bucket, key)))
  }

  /** Where resolve leads, as segments below the storage base. */
  function Locate(bucket: string, key: string): (r: Option<Path>)
    ensures r.Some? ==> |r.value| >= 2
  {
    if ValidComponent(bucket) && ValidComponent(key) then
      AcceptedSegments(bucket);
      AcceptedSegments(key);
      Some(Segments(bucket) + Segments(key))
    else None
  }

  function IndexOf(s: string, c: char): (i: int)
    ensures -1 <= i < |s|
    ensures i >= 0 ==> s[i] == c && c !in s[..i]
    ensures i < 0 ==> c !in s
  {
    if s == "" then -1
    else if s[0] == c then 0
    else
      var rest := IndexOf(s[1..], c);
      assert forall k :: 1 <= k <= |s| ==> s[..k] == [s[0]] + s[1..][..k - 1];
      if rest < 0 then -1 else rest + 1
  }

  /** BucketKey: only the first segment of a stored path is taken as the bucket. */
  function BucketKey(path: string): (string, string) {
    var i := IndexOf(path, '/');
    if i < 0 then (path, "") else (path[..i], path[i + 1..])
  }

  /** Where the service looks for a stored path. */
  function LocatePath(path: string): Option<Path> {
    var (bucket, key) := BucketKey(path);
    Locate(bucket, key)
  }

  // ---------- the stack fold ----------

  predicate Climbs(p: Path) {
    ".." in p
  }

  /** A segment a clean path may contain besides `..`. */
  predicate Plain(part: string) {
    part != "" && part != "." && part != ".." && '/' !in part
  }

  lemma {:induction false} FoldConcat(stack: Path, rooted: bool, a: seq<string>, b: seq<string>)
    ensures Fold(stack, rooted, a + b) == Fold(Fold(stack, rooted, a), rooted, b)
    decreases |a|
  {
    if a == [] {
      assert a + b == b;
    } else {
      assert (a + b)[1..] == a[1..] + b;
      FoldConcat(Push(stack, rooted, a[0]), rooted, a[1..], b);
    }
  }

  /** The stack of a relative path is some `..` followed by plain segments. */
  predicate Stacked(p: Path) {
    forall i :: 0 <= i < |p| ==> Plain(p[i]) || (forall j :: 0 <= j <= i ==> p[j] == "..")
  }

  lemma {:induction false} FoldStacked(stack: Path, rooted: bool, parts: seq<string>)
    requires Stacked(stack) && (rooted ==> !Climbs(stack))
    requires forall i :: 0 <= i < |parts| ==> '/' !in parts[i]
    ensures Stacked(Fold(stack, rooted, parts))
    ensures rooted ==> !Climbs(Fold(stack, rooted, parts))
    ensures Climbs(stack) ==> Climbs(Fold(stack, rooted, parts))
    decreases |parts|
  {
    if parts != [] {
      var next := Push(stack, rooted, parts[0]);
      if parts[0] == ".." && !rooted && Climbs(stack) {
        var i :| 0 <= i < |stack| && stack[i] == "..";
        assert stack[0] == "..";
        assert next[0] == "..";
      } else if Climbs(stack) && parts[0] != "" && parts[0] != "." && parts[0] != ".." {
        var i :| 0 <= i < |stack| && stack[i] == "..";
        assert next[i] == "..";
      }
      FoldStacked(next, rooted, parts[1..]);
    }
  }

  lemma SegmentsStacked(p: string)
    ensures Stacked(Segments(p))
    ensures IsAbs(p) ==> !Climbs(Segments(p))
  {
    FoldStacked([], IsAbs(p), Split(p, '/'));
  }

  /** Cleaned segments can be printed and read back. */
  lemma SplitClean(p: string)
    requires !IsAbs(p)
    ensures Split(Clean(p), '/') == if Segments(p) == [] then ["."] else Segments(p)
  {
    var segs := Segments(p);
    SegmentsStacked(p);
    if segs == [] {
      SplitNone(".", '/');
    } else {
      SplitJoin(segs, '/');
    }
  }

  /** A component is accepted exactly when it is relative and cleans to at least one
      segment, none of them `..`. */
  lemma AcceptedSegments(value: string)
    ensures ValidComponent(value) <==> !IsAbs(value) && Segments(value) != [] && !Climbs(Segments(value))
    ensures ValidComponent(value) ==> forall i :: 0 <= i < |Segments(value)| ==> Plain(Segments(value)[i])
  {
    var segs := Segments(value);
    SegmentsStacked(value);
    if !IsAbs(value) {
      SplitClean(value);
      if segs != [] {
        assert segs == [".."] ==> Climbs(segs);
        SplitNone(".", '/');
        SplitNone("..", '/');
        assert segs[0] in segs;
      }
    }
  }

  /** Folding over a stack never touches it when the same parts, read as a relative
      path on top of r, do not climb. */
  lemma {:induction false} FoldAbove(stack: Path, r: Path, rooted: bool, parts: seq<string>)
    requires forall i :: 0 <= i < |parts| ==> '/' !in parts[i]
    requires Stacked(r) && !Climbs(r)
    requires !Climbs(Fold(r, false, parts))
    ensures Fold(stack + r, rooted, parts) == stack + Fold(r, false, parts)
    decreases |parts|
  {
    if parts != [] {
      var next := Push(r, false, parts[0]);
      FoldStacked(r, false, parts[..1]);
      assert Fold(r, false, parts[..1]) == next;
      FoldStacked(next, false, parts[1..]);
      if parts[0] == ".." {
        assert r == [] ==> next == [".."];
        assert r[|r| - 1] in r;
        assert (stack + r)[..|stack + r| - 1] == stack + r[..|r| - 1];
      } else {
        assert parts[0] != "" && parts[0] != "." ==> stack + r + [parts[0]] == stack + (r + [parts[0]]);
      }
      FoldAbove(stack, next, rooted, parts[1..]);
    }
  }

  /** Cleaning first and then folding is folding directly: a cleaned relative path keeps
      its effect on any stack without `..`. */
  lemma {:induction false} FoldClean(stack: Path, r: Path, parts: seq<string>)
    requires !Climbs(stack) && Stacked(stack) && Stacked(r)
    requires forall i :: 0 <= i < |parts| ==> '/' !in parts[i]
    ensures Fold(stack, true, Fold(r, false, parts)) == Fold(Fold(stack, true, r), true, parts)
    decreases |parts|
  {
    if parts != [] {
      var next := Push(r, false, parts[0]);
      FoldStacked(r, false, parts[..1]);
      assert Fold(r, false, parts[..1]) == next;
      FoldClean(stack, next, parts[1..]);
      FoldPush(stack, r, parts[0]);
    }
  }

  lemma FoldPush(stack: Path, r: Path, part: string)
    requires !Climbs(stack) && Stacked(stack) && Stacked(r)
    requires '/' !in part
    ensures Fold(stack, true, Push(r, false, part)) == Push(Fold(stack, true, r), true, part)
  {
    forall i | 0 <= i < |r| ensures '/' !in r[i] {
      assert Plain(r[i]) || r[i] == "..";
    }
    FoldStacked(stack, true, r);
    if part == "" || part == "." {
    } else if part == ".." && r != [] && r[|r| - 1] != ".." {
      var front, last := r[..|r| - 1], r[|r| - 1];
      assert r == front + [last];
      FoldConcat(stack, true, front, [last]);
      assert Plain(last);
      var mid := Fold(stack, true, front);
      FoldStacked(stack, true, front);
      assert Fold(stack, true, r) == mid + [last];
      assert (mid + [last])[..|mid|] == mid;
    } else {
      FoldConcat(stack, true, r, [part]);
      assert Fold(Fold(stack, true, r), true, [part]) == Push(Fold(stack, true, r), true, part);
    }
  }

  /** The segments of a path made absolute. */
  lemma AbsSegments(cwd: string, p: string)
    requires IsAbs(cwd)
    ensures IsAbs(Abs(cwd, p)) && !Climbs(Segments(Abs(cwd, p)))
    ensures Segments(Abs(cwd, p)) == Fold(if IsAbs(p) then [] else Segments(cwd), true, Split(p, '/'))
  {
    var full := if IsAbs(p) then p else cwd + "/" + p;
    SegmentsStacked(full);
    var segs := Segments(full);
    if !IsAbs(p) {
      assert full == cwd + ['/'] + p;
      SplitAround(cwd, p, '/');
      FoldConcat([], true, Split(cwd, '/'), Split(p, '/'));
    }
    SegmentsOfClean(full);
  }

  /** Cleaning an absolute path is idempotent. */
  lemma SegmentsOfClean(p: string)
    requires IsAbs(p)
    ensures IsAbs(Clean(p)) && Segments(Clean(p)) == Segments(p)
  {
    hide Split, Join;
    var segs := Segments(p);
    SplitCleanAbs(p);
    SegmentsStacked(p);
    FoldConcat([], true, [""], if segs == [] then [""] else segs);
    assert Fold([], true, [""]) == [];
    if segs != [] {
      FoldPlain([], segs);
    }
  }

  lemma SplitCleanAbs(p: string)
    requires IsAbs(p)
    ensures IsAbs(Clean(p))
    ensures Split(Clean(p), '/') == [""] + if Segments(p) == [] then [""] else Segments(p)
  {
    hide Fold;
    var segs := Segments(p);
    SegmentsStacked(p);
    var text := if segs == [] then "" else Join(segs, '/');
    assert Clean(p) == "" + ['/'] + text;
    SplitAround("", text, '/');
    SplitNone("", '/');
    if segs != [] {
      SplitJoin(segs, '/');
    }
  }

  /** A path made absolute is written from its segments. */
  lemma AbsText(cwd: string, p: string)
    requires IsAbs(cwd)
    ensures var segs := Segments(Abs(cwd, p));
      Abs(cwd, p) == if segs == [] then "/" else "/" + Join(segs, '/')
  {
    hide Segments, Join;
    SegmentsOfClean(if IsAbs(p) then p else cwd + "/" + p);
  }

  lemma {:induction false} FoldPlain(stack: Path, parts: Path)
    requires forall i :: 0 <= i < |parts| ==> Plain(parts[i])
    ensures forall rooted :: Fold(stack, rooted, parts) == stack + parts
    decreases |parts|
  {
    if parts != [] {
      FoldPlain(stack + [parts[0]], parts[1..]);
      assert stack + [parts[0]] + parts[1..] == stack + parts;
    }
  }

  // ---------- main results ----------

  /** Segments of a three-part join, seen from a stack. */
  lemma FoldJoin(stack: Path, base: string, bucket: string, key: string)
    requires !Climbs(stack) && Stacked(stack)
    requires ValidComponent(bucket) && ValidComponent(key)
    ensures Fold(stack, true, Split(base + "/" + bucket + "/" + key, '/'))
         == Fold(stack, true, Split(base, '/')) + Segments(bucket) + Segments(key)
  {
    hide Split, ValidComponent, Push;
    AcceptedSegments(bucket);
    AcceptedSegments(key);
    assert base + "/" + bucket + "/" + key == base + ['/'] + (bucket + ['/'] + key);
    SplitAround(base, bucket + ['/'] + key, '/');
    SplitAround(bucket, key, '/');
    var inner := Fold(stack, true, Split(base, '/'));
    FoldConcat(stack, true, Split(base, '/'), Split(bucket, '/') + Split(key, '/'));
    FoldConcat(inner, true, Split(bucket, '/'), Split(key, '/'));
    FoldAbove(inner, [], true, Split(bucket, '/'));
    assert inner + [] == inner;
    FoldAbove(inner + Segments(bucket), [], true, Split(key, '/'));
    assert inner + Segments(bucket) + [] == inner + Segments(bucket);
  }

  /** The same without a base. */
  lemma FoldJoinBare(stack: Path, bucket: string, key: string)
    requires !Climbs(stack) && Stacked(stack)
    requires ValidComponent(bucket) && ValidComponent(key)
    ensures Fold(stack, true, Split(bucket + "/" + key, '/')) == stack + Segments(bucket) + Segments(key)
    ensures Fold(stack, true, Split("", '/')) == stack
  {
    hide ValidComponent, Segments, Climbs, Stacked;
    FoldJoin(stack, "", bucket, key);
    var rest := bucket + "/" + key;
    assert "" + "/" + bucket + "/" + key == "" + ['/'] + rest;
    SplitNone("", '/');
    SplitAround("", rest, '/');
    FoldConcat(stack, true, [""], Split(rest, '/'));
    assert Fold(stack, true, [""]) == stack;
  }

  lemma JoinedAbs(base: string, bucket: string, key: string)
    requires ValidComponent(bucket)
    ensures var joined := Joined(base, bucket, key); joined != "" && IsAbs(joined) == IsAbs(base)
  {
    hide Clean;
    if base == "" {
      assert (bucket + "/" + key)[0] == bucket[0];
    } else {
      assert (base + "/" + bucket + "/" + key)[0] == base[0];
    }
  }

  lemma Regroup(a: Path, b: Path, c: Path)
    ensures a + b + c == a + (b + c)
  {
  }

  lemma JoinedBelow(cwd: string, base: string, bucket: string, key: string)
    requires IsAbs(cwd)
    requires ValidComponent(bucket) && ValidComponent(key)
    ensures Segments(Abs(cwd, Clean(Joined(base, bucket, key))))
         == Segments(Abs(cwd, base)) + (Segments(bucket) + Segments(key))
  {
    hide Split, Fold, Clean, Segments, Abs, IsAbs, ValidComponent, Stacked;
    var joined := Joined(base, bucket, key);
    JoinedAbs(base, bucket, key);
    var stack := if IsAbs(base) then [] else Segments(cwd);
    SegmentsStacked(cwd);
    EmptyStacked();
    AbsSegments(cwd, base);
    if base == "" {
      FoldJoinBare(stack, bucket, key);
    } else {
      FoldJoin(stack, base, bucket, key);
    }
    AbsSegments(cwd, joined);
    CleanThenAbs(cwd, joined);
    Regroup(Segments(Abs(cwd, base)), Segments(bucket), Segments(key));
  }

  lemma EmptyStacked()
    ensures Stacked([])
  {
  }

  /** Whatever the storage path and the working directory are, an accepted bucket and key
      resolve to the storage base followed by their own cleaned segments, a proper
      extension that ensureInside never rejects. */
  lemma ResolveStaysInside(cwd: string, base: string, bucket: string, key: string)
    requires IsAbs(cwd)
    ensures Resolve(cwd, base, bucket, key).Some? <==> Locate(bucket, key).Some?
    ensures Locate(bucket, key).Some?
            ==> Segments(Resolve(cwd, base, bucket, key).value)
                == Segments(Abs(cwd, base)) + Locate(bucket, key).value
  {
    if ValidComponent(bucket) && ValidComponent(key) {
      JoinedBelow(cwd, base, bucket, key);
      AcceptedSegments(bucket);
      assert Plain(Segments(bucket)[0]);
      InsideBelow(cwd, base, Clean(Joined(base, bucket, key)), Segments(bucket) + Segments(key));
    }
  }

  lemma InsideBelow(cwd: string, base: string, target: string, rest: Path)
    requires rest != [] && rest[0] != ".."
    requires Segments(Abs(cwd, target)) == Segments(Abs(cwd, base)) + rest
    ensures EnsureInside(cwd, base, target) == Some(Abs(cwd, target))
  {
    RelBelow(Segments(Abs(cwd, base)), rest);
  }

  /** ensureInside lets a target through, as it is, if and only if its segments start with those of
      the base: for any target, one that resolve never builds included. */
  lemma InsideIff(cwd: string, base: string, target: string)
    requires IsAbs(cwd)
    ensures EnsureInside(cwd, base, target)
         == if Segments(Abs(cwd, base)) <= Segments(Abs(cwd, target)) then Some(Abs(cwd, target)) else None
  {
    hide Segments, Abs;
    AbsSegments(cwd, base);
    AbsSegments(cwd, target);
    var a, b := Segments(Abs(cwd, base)), Segments(Abs(cwd, target));
    var n := CommonPrefix(a, b);
    assert a[..|a|] == a;
    if a <= b {
      assert forall i :: 0 <= i < |a| ==> a[i] == b[i];
      assert n == |a|;
      assert Rel(a, b) == b[n..];
      assert b[n..] != [] ==> b[n] in b;
    } else {
      assert n != |a|;
      assert Rel(a, b)[0] == "..";
    }
  }

  lemma RelBelow(base: Path, rest: Path)
    ensures Rel(base, base + rest) == rest
  {
    assert (base + rest)[|base|..] == rest;
  }

  /** Cleaning a path before making it absolute does not change where it leads. */
  lemma CleanThenAbs(cwd: string, p: string)
    requires IsAbs(cwd) && p != ""
    ensures Segments(Abs(cwd, Clean(p))) == Segments(Abs(cwd, p))
  {
    if IsAbs(p) {
      SegmentsOfClean(p);
      SegmentsOfClean(Clean(p));
    } else {
      SegmentsStacked(cwd);
      SegmentsStacked(p);
      SplitClean(p);
      var segs := Segments(p);
      assert !IsAbs(Clean(p)) by {
        if segs != [] {
          assert Split(Clean(p), '/')[0] != "";
        }
      }
      AbsSegments(cwd, p);
      AbsSegments(cwd, Clean(p));
      FoldClean(Segments(cwd), [], Split(p, '/'));
      if segs == [] {
        assert Fold(Segments(cwd), true, ["."]) == Segments(cwd);
      }
    }
  }

  // ---------- stored paths ----------

  predicate IsHexDigit(c: char) {
    '0' <= c <= '9' || 'a' <= c <= 'f'
  }

  /** The text form of a UUID. */
  predicate IsUuid(s: string) {
    |s| == 36 && forall i :: 0 <= i < 36 ==> if i in {8, 13, 18, 23} then s[i] == '-' else IsHexDigit(s[i])
  }

  type UUID = s: string | IsUuid(s) witness "00000000-0000-0000-0000-000000000000"

  lemma UuidPlain(id: UUID)
    ensures Plain(id) && id != "tmp"
    ensures Split(id, '/') == [id] && Segments(id) == [id] && ValidComponent(id)
  {
    assert '/' !in id by {
      forall i | 0 <= i < |id| ensures id[i] != '/' {
      }
    }
    SingleSegment(id);
  }

  lemma SingleSegment(part: string)
    requires Plain(part)
    ensures Split(part, '/') == [part] && Segments(part) == [part] && ValidComponent(part)
  {
    SplitNone(part, '/');
    FoldPlain([], [part]);
    AcceptedSegments(part);
  }

  /** A text whose parts are all plain is accepted and stands for these parts. */
  lemma PlainSegments(p: string)
    requires forall i :: 0 <= i < |Split(p, '/')| ==> Plain(Split(p, '/')[i])
    ensures ValidComponent(p) && Segments(p) == Split(p, '/')
  {
    var parts := Split(p, '/');
    assert parts[0] != "";
    NotAbs(p);
    FoldPlain([], parts);
    AcceptedSegments(p);
  }

  lemma NotAbs(p: string)
    ensures IsAbs(p) ==> Split(p, '/')[0] == ""
  {
  }

  /** The segments of a bucket that is written the way it is stored. */
  ghost predicate CanonicalBucket(bucket: string) {
    var parts := Split(bucket, '/');
    forall i :: 0 <= i < |parts| ==> Plain(parts[i])
  }

  lemma IndexOfFirst(s: string, c: char, i: nat)
    requires i < |s| && s[i] == c && c !in s[..i]
    ensures IndexOf(s, c) == i
  {
    var k := IndexOf(s, c);
    assert forall j :: 0 <= j < i ==> s[..i][j] == s[j];
    assert forall j :: 0 <= j < k ==> s[..k][j] == s[j];
    assert s[i] in s;
  }

  lemma BucketKeyOf(first: string, rest: string)
    requires '/' !in first
    ensures BucketKey(first + "/" + rest) == (first, rest)
  {
    var p := first + "/" + rest;
    assert p[..|first|] == first && p[|first|] == '/' && p[|first| + 1..] == rest;
    IndexOfFirst(p, '/', |first|);
  }

  lemma {:induction false} FoldNeverClimbs(stack: Path, parts: seq<string>)
    requires ".." !in parts && !Climbs(stack)
    ensures !Climbs(Fold(stack, false, parts))
    decreases |parts|
  {
    if parts != [] {
      assert parts[0] in parts;
      FoldNeverClimbs(Push(stack, false, parts[0]), parts[1..]);
    }
  }

  /** An object keyed by one plain segment lies in the bucket's own segments. */
  lemma LocateKey(bucket: string, key: string)
    requires Plain(key)
    ensures Locate(bucket, key) == if ValidComponent(bucket) then Some(Segments(bucket) + [key]) else None
  {
    SingleSegment(key);
  }

  /** Segments of a relative path below a plain first segment. */
  lemma SegmentsBelow(first: string, rest: string)
    requires Plain(first) && rest != "" && !IsAbs(rest) && ".." !in Split(rest, '/')
    ensures Segments(first + "/" + rest) == [first] + Segments(rest)
  {
    assert first + "/" + rest == first + ['/'] + rest;
    SplitAround(first, rest, '/');
    SplitNone(first, '/');
    NotAbs(first + "/" + rest);
    FoldConcat([], false, [first], Split(rest, '/'));
    FoldNeverClimbs([], Split(rest, '/'));
    FoldAbove([first], [], false, Split(rest, '/'));
    assert [first] + [] == [first] == [] + [first];
    assert Split(first + "/" + rest, '/')[0] == first;
    assert Fold([], false, [first]) == [first];
  }

  /** A bucket keeps its objects reachable through the stored path: its first segment is
      not a lone dot, and is not followed by a slash that ends it or doubles it. */
  predicate FirstSegmentKept(bucket: string) {
    var i := IndexOf(bucket, '/');
    if i < 0 then bucket != "." else bucket[..i] != "." && i + 1 < |bucket| && bucket[i + 1] != '/'
  }

  lemma LocatePathOf(first: string, rest: string)
    requires '/' !in first
    ensures LocatePath(first + "/" + rest) == Locate(first, rest)
  {
    BucketKeyOf(first, rest);
  }

  /** Upload writes to (bucket, id) but every later access goes through BucketKey of the
      stored path: for an accepted bucket without `..` the two agree exactly when the
      bucket's first segment is kept; otherwise the stored path leads nowhere. */
  lemma StoredPathReachable(bucket: string, id: UUID)
    requires ValidComponent(bucket) && ".." !in Split(bucket, '/')
    ensures Locate(bucket, id) == Some(Segments(bucket) + [id])
    ensures LocatePath(bucket + "/" + id) == if FirstSegmentKept(bucket) then Locate(bucket, id) else None
  {
    hide Fold, ValidComponent, Segments, Locate, LocatePath, FirstSegmentKept, Split, IsUuid;
    var i := IndexOf(bucket, '/');
    StoredLocation(bucket, id);
    if i < 0 {
      StoredPathFlat(bucket, id);
    } else {
      StoredPathNested(bucket, bucket[..i], bucket[i + 1..], id);
    }
  }

  lemma StoredLocation(bucket: string, id: UUID)
    requires ValidComponent(bucket)
    ensures Locate(bucket, id) == Some(Segments(bucket) + [id])
  {
    UuidPlain(id);
    LocateKey(bucket, id);
  }

  lemma StoredPathFlat(bucket: string, id: UUID)
    requires ValidComponent(bucket) && '/' !in bucket
    ensures LocatePath(bucket + "/" + id) == Locate(bucket, id) && FirstSegmentKept(bucket)
  {
    LocatePathOf(bucket, id);
    DotRejected();
  }

  lemma StoredPathNested(bucket: string, first: string, rest: string, id: UUID)
    requires '/' !in first && bucket == first + ['/'] + rest
    requires ValidComponent(bucket) && ".." !in Split(bucket, '/')
    requires Locate(bucket, id) == Some(Segments(bucket) + [id])
    ensures LocatePath(bucket + "/" + id) == if FirstSegmentKept(bucket) then Locate(bucket, id) else None
  {
    assert bucket + "/" + id == first + "/" + (rest + "/" + id);
    LocatePathOf(first, rest + "/" + id);
    KeptIff(first, rest);
    if first != "." && rest != "" && rest[0] != '/' {
      KeptBelow(first, rest, id);
    } else {
      LostBelow(first, rest, id);
    }
  }

  lemma DotRejected()
    ensures !ValidComponent(".")
  {
    AcceptedSegments(".");
    SplitNone(".", '/');
  }

  lemma KeptIff(first: string, rest: string)
    requires '/' !in first
    ensures FirstSegmentKept(first + "/" + rest) <==> first != "." && rest != "" && rest[0] != '/'
  {
    var bucket := first + "/" + rest;
    assert bucket[..|first|] == first && bucket[|first|] == '/';
    IndexOfFirst(bucket, '/', |first|);
  }

  lemma SplitTwo(first: string, rest: string)
    requires '/' !in first
    ensures Split(first + "/" + rest, '/') == [first] + Split(rest, '/')
  {
    assert first + "/" + rest == first + ['/'] + rest;
    SplitAround(first, rest, '/');
    SplitNone(first, '/');
  }

  lemma KeptBelow(first: string, rest: string, id: UUID)
    requires ValidComponent(first + "/" + rest) && ".." !in Split(first + "/" + rest, '/')
    requires '/' !in first && first != "." && rest != "" && rest[0] != '/'
    ensures Locate(first, rest + "/" + id) == Some(Segments(first + "/" + rest) + [id])
  {
    SplitTwo(first, rest);
    var parts := Split(first + "/" + rest, '/');
    assert parts[0] == first && parts[1..] == Split(rest, '/');
    assert first != "" by { assert first == "" ==> IsAbs(first + "/" + rest); }
    SingleSegment(first);
    SegmentsBelow(first, rest);
    SegmentsBefore(rest, id);
    assert [first] + (Segments(rest) + [id]) == [first] + Segments(rest) + [id];
  }

  lemma SegmentsBefore(rest: string, id: UUID)
    requires rest != "" && rest[0] != '/' && ".." !in Split(rest, '/')
    ensures ValidComponent(rest + "/" + id) && Segments(rest + "/" + id) == Segments(rest) + [id]
  {
    hide Split, ValidComponent, IsUuid;
    UuidPlain(id);
    assert rest + "/" + id == rest + ['/'] + id;
    SplitAround(rest, id, '/');
    FoldConcat([], false, Split(rest, '/'), [id]);
    FoldPlain(Segments(rest), [id]);
    FoldNeverClimbs([], Split(rest, '/'));
    AcceptedSegments(rest + "/" + id);
  }

  lemma LostBelow(first: string, rest: string, id: UUID)
    requires first == "." || rest == "" || rest[0] == '/'
    ensures Locate(first, rest + "/" + id) == None
  {
    SplitNone(".", '/');
    AcceptedSegments(first);
    AcceptedSegments(rest + "/" + id);
    if first != "." {
      assert (rest + "/" + id)[0] == '/';
    }
  }

  lemma {:induction false} FoldKeepsPlain(stack: Path, parts: seq<string>)
    requires ".." !in parts && forall i :: 0 <= i < |parts| ==> '/' !in parts[i]
    ensures Fold(stack, false, parts) != [] <==> stack != [] || exists i :: 0 <= i < |parts| && Plain(parts[i])
    decreases |parts|
  {
    if parts != [] {
      assert parts[0] in parts;
      FoldKeepsPlain(Push(stack, false, parts[0]), parts[1..]);
      assert forall i :: 1 <= i < |parts| ==> parts[i] == parts[1..][i - 1];
      assert Push(stack, false, parts[0]) != [] <==> stack != [] || Plain(parts[0]);
    }
  }

  /** A bucket the driver accepts and in which objects are found through their stored paths. */
  predicate Readable(bucket: string) {
    ValidComponent(bucket) && FirstSegmentKept(bucket)
  }

  /** For any bucket without `..`, the stored path of an object leads to the bucket's segments
      and the id when the bucket is readable, and nowhere otherwise. */
  lemma StoredPathLeads(bucket: string, id: UUID)
    requires bucket != "" && ".." !in Split(bucket, '/')
    ensures LocatePath(bucket + "/" + id) == if Readable(bucket) then Some(Segments(bucket) + [id]) else None
    ensures Readable(bucket) ==> Segments(bucket + "/" + id) == Segments(bucket) + [id] && Locate(bucket, id).Some?
  {
    hide Fold, ValidComponent, Segments, Locate, LocatePath, FirstSegmentKept, Split, IsUuid;
    if ValidComponent(bucket) {
      StoredPathReachable(bucket, id);
      NotAbsolute(bucket);
      SegmentsBefore(bucket, id);
    } else {
      RefusedPath(bucket, id);
    }
  }

  lemma NotAbsolute(bucket: string)
    requires ValidComponent(bucket)
    ensures bucket != "" && bucket[0] != '/'
  {
    hide Clean;
  }

  /** A rejected bucket without `..` is absolute or starts with a lone dot. */
  lemma RefusedPath(bucket: string, id: UUID)
    requires bucket != "" && ".." !in Split(bucket, '/') && !ValidComponent(bucket)
    ensures LocatePath(bucket + "/" + id) == None
  {
    hide Fold, ValidComponent, Locate, LocatePath, Split, Segments, IsUuid, Plain;
    var i := IndexOf(bucket, '/');
    if i < 0 {
      LocatePathOf(bucket, id);
      NothingLocated(bucket, id);
    } else {
      var first, rest := bucket[..i], bucket[i + 1..];
      assert bucket == first + "/" + rest;
      assert bucket + "/" + id == first + "/" + (rest + "/" + id);
      RefusedFirst(first, rest);
      LocatePathOf(first, rest + "/" + id);
      NothingLocated(first, rest + "/" + id);
    }
  }

  lemma RefusedFirst(first: string, rest: string)
    requires '/' !in first
    requires ".." !in Split(first + "/" + rest, '/') && !ValidComponent(first + "/" + rest)
    ensures !ValidComponent(first)
  {
    hide ValidComponent, Split, Segments;
    var bucket := first + "/" + rest;
    AcceptedSegments(first);
    if first != "" {
      assert bucket[0] == first[0];
      AcceptedSegments(bucket);
      NothingPlain(bucket);
      SplitTwo(first, rest);
      assert Split(bucket, '/')[0] == first;
      DotRejected();
    } else {
      AcceptedSegments("");
      SplitNone("", '/');
      NothingPlain("");
    }
  }

  lemma NothingPlain(p: string)
    requires !IsAbs(p) && ".." !in Split(p, '/')
    ensures !Climbs(Segments(p))
    ensures Segments(p) == [] <==> forall i :: 0 <= i < |Split(p, '/')| ==> !Plain(Split(p, '/')[i])
  {
    hide Split;
    FoldNeverClimbs([], Split(p, '/'));
    FoldKeepsPlain([], Split(p, '/'));
  }

  lemma NothingLocated(bucket: string, key: string)
    requires !ValidComponent(bucket)
    ensures Locate(bucket, key) == None
  {
  }

  /** The shape of a stored path: a canonical bucket followed by an id. */
  ghost predicate CanonicalPath(p: string) {
    var parts := Split(p, '/');
    |parts| >= 2 && IsUuid(parts[|parts| - 1]) && forall i :: 0 <= i < |parts| ==> Plain(parts[i])
  }

  /** A canonical stored path leads to its own segments. */
  lemma LocateCanonical(p: string)
    requires CanonicalPath(p)
    ensures LocatePath(p) == Some(Split(p, '/'))
  {
    var parts := Split(p, '/');
    var first, rest := parts[0], Join(parts[1..], '/');
    assert p == first + "/" + rest;
    BucketKeyOf(first, rest);
    SingleSegment(first);
    SplitJoin(parts[1..], '/');
    PlainSegments(rest);
    assert [first] + parts[1..] == parts;
  }

  /** Two canonical stored paths lead to the same object only if they are equal. */
  lemma LocateInjective(p: string, q: string)
    requires CanonicalPath(p) && CanonicalPath(q)
    requires LocatePath(p) == LocatePath(q)
    ensures p == q
  {
    LocateCanonical(p);
    LocateCanonical(q);
    SplitInjective(p, q, '/');
  }
}
