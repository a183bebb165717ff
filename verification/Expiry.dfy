/** Purging expired rows, and what a crash in the middle of a deletion or a purge leaves. */
module Expiry {
  import opened Wrappers
  import opened Text
  import opened Paths
  import opened Trees
  import opened Store
  import opened BlobModel
  import opened Shapes
  import opened Integrity
  import References

  const NOBODY: set<string> := {}

  /** Every object of a was one of b, with the same bytes. */
  ghost predicate PartOf(a: map<Path, Bytes>, b: map<Path, Bytes>) {
    forall f :: f in a ==> f in b && a[f] == b[f]
  }

  /** The purge loop removes each listed row once, with its object when no row is left that
      shares it; the sharers are counted again before every deletion. */
  lemma {:induction false} PurgeOutcome(sha: Bytes -> string, p: Purged, found: Rows, order: seq<UUID>,
      loose: set<string>)
    requires InvExcept(sha, p.state, loose) && Distinct(order)
    requires forall id :: id in order ==> id in p.state.rows && id in found && found[id].path == p.state.rows[id].path
    ensures var r := PurgeLoop(p, found, order);
      && r.removed == p.removed + |order|
      && r.state.rows == p.state.rows - Ids(order) && r.state.sessions == p.state.sessions
      && InvExcept(sha, r.state, loose - Ids(order))
      && PartOf(Blobs(r.state.tree), Blobs(p.state.tree)) && Temps(r.state.tree) == Temps(p.state.tree)
    decreases |order|
  {
    hide InvExcept, Blobs, Temps, Home, RemovePhysical;
    if order == [] {
      assert p.state.rows - Ids(order) == p.state.rows;
      assert loose - Ids(order) == loose;
    } else {
      var id := order[0];
      DropRow(sha, p.state, id, loose);
      var next := PurgeOne(p, id, found[id].path);
      assert forall x :: x in order[1..] ==> x in order;
      forall x | x in order[1..] ensures x in next.state.rows && found[x].path == next.state.rows[x].path {
        var j :| 0 <= j < |order[1..]| && order[1..][j] == x;
        assert x == order[j + 1];
      }
      PurgeOutcome(sha, next, found, order[1..], loose - {id});
      assert Ids(order) == {id} + Ids(order[1..]);
      assert p.state.rows - {id} - Ids(order[1..]) == p.state.rows - Ids(order);
      assert loose - {id} - Ids(order[1..]) == loose - Ids(order);
    }
  }

  /** A row stays in a purge when it has no expiry or one that is still to come. */
  predicate Outlasts(row: Blob, now: int) {
    row.expiresAt.None? || now < row.expiresAt.value
  }

  /** What a purge at some moment leaves, in terms of the rows FindExpired listed. */
  lemma PurgeLeaves(sha: Bytes -> string, s: State, now: int, order: seq<UUID>, loose: set<string>)
    requires InvExcept(sha, s, loose) && loose <= Expired(s.rows, now)
    requires Lists(order, Expired(s.rows, now))
    ensures var r := PurgeExpired(s, order);
      && Inv(sha, r.state)
      && r.state.rows == s.rows - Expired(s.rows, now) && r.removed == |Expired(s.rows, now)|
      && PartOf(Blobs(r.state.tree), Blobs(s.tree))
      && Temps(r.state.tree) == Temps(s.tree) && r.state.sessions == s.sessions
  {
    hide Shaped, Blobs, Temps, Home, PurgeLoop, RowsCanonical, SessionsOk, InvExcept;
    PurgeOutcome(sha, Purged(s, 0), s.rows, order, loose);
    assert Ids(order) == Expired(s.rows, now);
    DistinctCount(order);
    assert loose - Ids(order) == NOBODY;
  }

  /** PurgeExpired removes exactly the rows with an expiry up to now and says how many; an object
      survives exactly when a row without expiry, or with a later one, still points at it. */
  lemma PurgeExact(sha: Bytes -> string, s: State, now: int, order: seq<UUID>, loose: set<string>)
    requires InvExcept(sha, s, loose) && loose <= Expired(s.rows, now)
    requires Lists(order, Expired(s.rows, now))
    ensures var r := PurgeExpired(s, order);
      && Inv(sha, r.state)
      && (forall id :: id in s.rows ==>
            (id in r.state.rows <==> s.rows[id].expiresAt.None? || now < s.rows[id].expiresAt.value))
      && (forall id :: id in r.state.rows ==> id in s.rows && r.state.rows[id] == s.rows[id])
      && r.removed + |r.state.rows| == |s.rows|
      && (forall f :: f in Blobs(s.tree) ==>
            (f in Blobs(r.state.tree) <==>
             exists id :: id in s.rows && Outlasts(s.rows[id], now) && Home(s.rows[id]) == f))
      && PartOf(Blobs(r.state.tree), Blobs(s.tree))
      && Temps(r.state.tree) == Temps(s.tree) && r.state.sessions == s.sessions
  {
    hide Shaped, Blobs, Temps, Home, PurgeExpired, InvExcept;
    PurgeLeaves(sha, s, now, order, loose);
    var r := PurgeExpired(s, order);
    RowsLeft(s.rows, Expired(s.rows, now));
    forall f | f in Blobs(s.tree)
      ensures f in Blobs(r.state.tree) <==>
        exists id :: id in s.rows && Outlasts(s.rows[id], now) && Home(s.rows[id]) == f
    {
      SurvivesIff(sha, r.state, f);
      if id :| id in s.rows && Outlasts(s.rows[id], now) && Home(s.rows[id]) == f {
        assert id in r.state.rows && Home(r.state.rows[id]) == f;
      }
    }
  }

  lemma RowsLeft(rows: Rows, gone: set<UUID>)
    requires gone <= rows.Keys
    ensures |rows - gone| + |gone| == |rows|
  {
    assert (rows - gone).Keys == rows.Keys - gone;
    assert |(rows - gone).Keys| == |rows - gone| && |rows.Keys| == |rows|;
  }

  /** In a store in order, an object is stored exactly when a row points at it. */
  lemma SurvivesIff(sha: Bytes -> string, s: State, f: Path)
    requires Inv(sha, s)
    ensures f in Blobs(s.tree) <==> exists id :: id in s.rows && Home(s.rows[id]) == f
  {
    hide Shaped, Blobs, Home, RowsCanonical, SessionsOk;
    if f in Blobs(s.tree) {
      assert References.Referenced(Refs(s.rows), f);
      var id: UUID :| id in Refs(s.rows) && Refs(s.rows)[id].home == f;
      assert id in s.rows && Home(s.rows[id]) == f;
    }
    if id :| id in s.rows && Home(s.rows[id]) == f {
      assert Refs(s.rows)[id].home == f;
    }
  }

  /** Objects in step with the same references, drawn from the same objects, are the same. */
  lemma BlobsDetermined(sha: Bytes -> string, refs: References.Refs, a: map<Path, Bytes>, b: map<Path, Bytes>,
      all: map<Path, Bytes>)
    requires References.InStep(sha, refs, a, {}) && References.InStep(sha, refs, b, {})
    requires PartOf(a, all) && PartOf(b, all)
    ensures a == b
  {
    forall f | f in a ensures f in b {
      assert References.Referenced(refs, f);
    }
    forall f | f in b ensures f in a {
      assert References.Referenced(refs, f);
    }
    assert a.Keys == b.Keys;
  }

  /** The database may list the expired rows in any order: the outcome is the same. */
  lemma PurgeOrderIrrelevant(sha: Bytes -> string, s: State, now: int, a: seq<UUID>, b: seq<UUID>)
    requires Inv(sha, s) && Lists(a, Expired(s.rows, now)) && Lists(b, Expired(s.rows, now))
    ensures SameStore(PurgeExpired(s, a).state, PurgeExpired(s, b).state)
    ensures PurgeExpired(s, a).removed == PurgeExpired(s, b).removed
  {
    hide Shaped, Blobs, Temps, PurgeLoop;
    PurgeLeaves(sha, s, now, a, {});
    PurgeLeaves(sha, s, now, b, {});
    var ra, rb := PurgeExpired(s, a).state, PurgeExpired(s, b).state;
    BlobsDetermined(sha, Refs(ra.rows), Blobs(ra.tree), Blobs(rb.tree), Blobs(s.tree));
  }

  /** Same rows, same sessions and same objects; empty directories may differ. */
  ghost predicate SameStore(a: State, b: State) {
    && a.rows == b.rows && a.sessions == b.sessions
    && Blobs(a.tree) == Blobs(b.tree) && Temps(a.tree) == Temps(b.tree)
  }

  lemma SameObjects(a: State, b: State)
    requires SameStore(a, b)
    ensures a.tree.files == b.tree.files
  {
    forall f | f in a.tree.files ensures f in b.tree.files && b.tree.files[f] == a.tree.files[f] {
      assert f in Blobs(a.tree) || f in Temps(a.tree);
    }
    forall f | f in b.tree.files ensures f in a.tree.files {
      assert f in Blobs(b.tree) || f in Temps(b.tree);
    }
  }

  // ---------- crashes ----------

  /** Where a deletion may stop: before it touches the storage, after the file is unlinked
      and some rounds of pruning, or at its end. */
  datatype CrashPoint = BeforeStorage | Unlinked(rounds: nat) | Finished

  /** What a deletion of row id leaves when it stops there. */
  function CrashedDelete(s: State, id: UUID, point: CrashPoint): State {
    match point
    case BeforeStorage => s
    case Unlinked(rounds) =>
      if id !in s.rows || |Sharers(s.rows, s.rows[id].path)| > 1 then s
      else
        var home := LocatePath(s.rows[id].path);
        if home.None? then s
        else s.(tree := Prune(Unlink(s.tree, home.value).tree, Parent(home.value), rounds))
    case Finished => DeleteBlob(s, id).state
  }

  /** Unlinking an object and pruning for a while is a shaped tree without the object. */
  lemma UnlinkShaped(t: Tree, f: Path, rounds: nat)
    requires Shaped(t) && ObjectShape(f)
    ensures var u := Prune(Unlink(t, f).tree, Parent(f), rounds);
      Shaped(u) && u.files == t.files - {f} && u.dirs <= t.dirs
  {
    hide Prune, Unlink;
    UnlinkEffect(t, f);
    PruneEffect(Unlink(t, f).tree, Parent(f), rounds);
  }

  /** Wherever a deletion stops, in a store where the rows in `loose` may lack their objects
      already, besides them only its own row may lack its object. */
  lemma CrashedDeleteInv(sha: Bytes -> string, s: State, id: UUID, point: CrashPoint, loose: set<string>)
    requires InvExcept(sha, s, loose) && id in s.rows
    ensures var c := CrashedDelete(s, id, point);
      && InvExcept(sha, c, if id in c.rows then loose + {id} else loose - {id})
      && c.rows == (if point.Finished? then s.rows - {id} else s.rows) && c.sessions == s.sessions
      && Blobs(c.tree) == (if point.BeforeStorage? || |Sharers(s.rows, s.rows[id].path)| > 1 then Blobs(s.tree)
                           else Blobs(s.tree) - {Home(s.rows[id])})
      && Temps(c.tree) == Temps(s.tree)
  {
    hide LocatePath, Prune, Unlink, ObjectShape, IsUuid, RemovePhysical, Shaped, Blobs, Temps, InvExcept, Home, Refs,
      RowCanonical;
    HomesFree(sha, s, loose, id);
    RowLocation(s.tree, s.rows[id]) by { InvParts(sha, s, loose); }
    Loosen(sha, s, id, loose);
    match point
    case BeforeStorage =>
    case Unlinked(rounds) =>
      if |Sharers(s.rows, s.rows[id].path)| <= 1 {
        CrashUnlinked(sha, s, id, rounds, loose);
      }
    case Finished =>
      DropRow(sha, s, id, loose);
  }

  lemma CrashUnlinked(sha: Bytes -> string, s: State, id: UUID, rounds: nat, loose: set<string>)
    requires InvExcept(sha, s, loose) && id in s.rows && |Sharers(s.rows, s.rows[id].path)| <= 1
    requires LocatePath(s.rows[id].path) == Some(Home(s.rows[id]))
    ensures var c := CrashedDelete(s, id, Unlinked(rounds));
      && InvExcept(sha, c, loose + {id}) && c.rows == s.rows && c.sessions == s.sessions
      && Blobs(c.tree) == Blobs(s.tree) - {Home(s.rows[id])} && Temps(c.tree) == Temps(s.tree)
  {
    hide LocatePath, Prune, Unlink, ObjectShape, IsUuid, Shaped, Blobs, Temps, InvExcept, Home, RowCanonical,
      RowsCanonical;
    var home := Home(s.rows[id]);
    InvParts(sha, s, loose);
    HomesFree(sha, s, loose, id);
    RowShape(s.rows[id]);
    UnlinkShaped(s.tree, home, rounds);
    OnlyReference(s.rows, id);
    ObjectLost(sha, s, id, CrashedDelete(s, id, Unlinked(rounds)).tree, loose);
  }

  lemma Loosen(sha: Bytes -> string, s: State, id: UUID, loose: set<string>)
    requires InvExcept(sha, s, loose)
    ensures InvExcept(sha, s, loose + {id})
  {
    hide Shaped, RowsCanonical, SessionsOk, Blobs, Home, Free, RowCanonical;
    if id in s.rows {
      HomesFree(sha, s, loose, id);
    }
  }

  /** Losing an object that only one row references makes just that row loose. */
  lemma ObjectLost(sha: Bytes -> string, s: State, id: UUID, t: Tree, loose: set<string>)
    requires InvExcept(sha, s, loose) && id in s.rows
    requires forall x :: x in Refs(s.rows) && x != id ==> Refs(s.rows)[x].home != Refs(s.rows)[id].home
    requires Shaped(t) && t.files == s.tree.files - {Home(s.rows[id])} && t.dirs <= s.tree.dirs
    requires !IsTemp(Home(s.rows[id]))
    ensures InvExcept(sha, s.(tree := t), loose + {id})
    ensures Blobs(t) == Blobs(s.tree) - {Home(s.rows[id])} && Temps(t) == Temps(s.tree)
  {
    hide Shaped, RowsCanonical, Home, Refs, Free, RowCanonical, Blobs, Temps, IsTemp;
    var refs := Refs(s.rows);
    RefHome(s.rows, id);
    BlobsWithout(s.tree, t, refs[id].home);
    References.LoseOwn(sha, refs, Blobs(s.tree), loose, id);
    forall x | x in s.rows && x in loose + {id} ensures Free(t, Home(s.rows[x])) {
      HomesFree(sha, s, loose, x);
      FreeShrinks(s.tree, t, Home(s.rows[x]));
    }
    forall x | x in s.sessions && !s.sessions[x].completed ensures References.Unused(refs, Blobs(t), x) {
      References.UnusedFewerObjects(refs, Blobs(s.tree), Blobs(t), x);
    }
  }

  lemma BlobsWithout(t: Tree, u: Tree, f: Path)
    requires u.files == t.files - {f} && !IsTemp(f)
    ensures Blobs(u) == Blobs(t) - {f} && Temps(u) == Temps(t)
  {
  }

  /** What a deletion attempted several times leaves, each attempt stopping somewhere. */
  function CrashedDeletes(s: State, id: UUID, points: seq<CrashPoint>): State
    decreases |points|
  {
    if points == [] then s else CrashedDeletes(CrashedDelete(s, id, points[0]), id, points[1..])
  }

  /** A deletion that is interrupted any number of times, wherever it stops each time, and then
      runs to its end leaves the rows and objects of an uninterrupted one; it puts its own row's
      slack right and no other's. */
  lemma {:induction false} DeleteConverges(sha: Bytes -> string, s: State, id: UUID, points: seq<CrashPoint>,
      loose: set<string>)
    requires InvExcept(sha, s, loose) && id in s.rows
    ensures var once, again := DeleteBlob(s, id).state, DeleteBlob(CrashedDeletes(s, id, points), id).state;
      && InvExcept(sha, once, loose - {id}) && InvExcept(sha, again, loose - {id})
      && SameStore(once, again) && once.tree.files == again.tree.files
    decreases |points|
  {
    hide InvExcept, SameStore, CrashedDelete, DeleteBlob;
    var once := DeleteBlob(s, id).state;
    DeleteKeeps(sha, s, id, loose);
    if points == [] {
      SameAsItself(once);
    } else {
      var c := CrashedDelete(s, id, points[0]);
      CrashedDeleteInv(sha, s, id, points[0], loose);
      CrashedOnce(sha, s, id, points[0], loose);
      if id in c.rows {
        DeleteConverges(sha, c, id, points[1..], loose + {id});
        assert loose + {id} - {id} == loose - {id};
        SameThrough(once, DeleteBlob(c, id).state, DeleteBlob(CrashedDeletes(s, id, points), id).state);
      } else {
        NothingLeft(c, id, points[1..]);
        NothingLeft(c, id, [Finished]);
      }
      SameObjects(once, DeleteBlob(CrashedDeletes(s, id, points), id).state);
    }
  }

  /** One interrupted attempt makes no difference to a deletion that follows. */
  lemma CrashedOnce(sha: Bytes -> string, s: State, id: UUID, point: CrashPoint, loose: set<string>)
    requires InvExcept(sha, s, loose) && id in s.rows
    ensures SameStore(DeleteBlob(s, id).state, DeleteBlob(CrashedDelete(s, id, point), id).state)
  {
    hide InvExcept, Blobs, Temps, CrashedDelete, RemovePhysical, Home;
    CrashedDeleteInv(sha, s, id, point, loose);
    DropRow(sha, s, id, loose);
    var c := CrashedDelete(s, id, point);
    if id in c.rows {
      DropRow(sha, c, id, loose + {id});
    }
  }

  lemma SameAsItself(s: State)
    ensures SameStore(s, s)
  {
  }

  lemma SameThrough(a: State, b: State, c: State)
    requires SameStore(a, b) && SameStore(b, c)
    ensures SameStore(a, c)
  {
  }

  /** Once the row is gone, further attempts change nothing. */
  lemma {:induction false} NothingLeft(s: State, id: UUID, points: seq<CrashPoint>)
    requires id !in s.rows
    ensures CrashedDeletes(s, id, points) == s && DeleteBlob(s, id).state == s
    decreases |points|
  {
    if points != [] {
      NothingLeft(s, id, points[1..]);
    }
  }

  /** What a purge leaves when it stops while removing the row listed at k. */
  function CrashedPurge(s: State, order: seq<UUID>, k: nat, point: CrashPoint): State
    requires k < |order| && forall id :: id in order ==> id in s.rows
  {
    CrashedDelete(PurgeLoop(Purged(s, 0), s.rows, order[..k]).state, order[k], point)
  }

  /** The state before the row listed at k is removed. */
  lemma PurgePrefix(sha: Bytes -> string, s: State, order: seq<UUID>, k: nat, loose: set<string>)
    requires InvExcept(sha, s, loose) && Distinct(order) && k < |order|
    requires forall id :: id in order ==> id in s.rows
    ensures var before := PurgeLoop(Purged(s, 0), s.rows, order[..k]).state;
      && InvExcept(sha, before, loose - Ids(order[..k]))
      && before.rows == s.rows - Ids(order[..k]) && before.sessions == s.sessions
      && order[k] in before.rows && order[k] in s.rows
      && PartOf(Blobs(before.tree), Blobs(s.tree)) && Temps(before.tree) == Temps(s.tree)
  {
    hide Shaped, Blobs, Temps, PurgeLoop, InvExcept;
    PurgeOutcome(sha, Purged(s, 0), s.rows, order[..k], loose);
    assert order[k] in order;
  }

  /** Wherever a purge stops, besides the rows that lacked their objects before and are left, only
      the row it was removing may lack its object. */
  lemma CrashedPurgeInv(sha: Bytes -> string, s: State, order: seq<UUID>, k: nat, point: CrashPoint, loose: set<string>)
    requires InvExcept(sha, s, loose) && Distinct(order) && k < |order|
    requires forall id :: id in order ==> id in s.rows
    ensures var c := CrashedPurge(s, order, k, point);
      && InvExcept(sha, c, StillLoose(c.rows, order, k, loose))
      && c.rows == s.rows - Ids(if point.Finished? then order[..k + 1] else order[..k]) && c.sessions == s.sessions
      && PartOf(Blobs(c.tree), Blobs(s.tree)) && Temps(c.tree) == Temps(s.tree)
  {
    hide Shaped, Blobs, Temps, LocatePath, CrashedDelete, InvExcept, PurgeLoop;
    PurgePrefix(sha, s, order, k, loose);
    var before := PurgeLoop(Purged(s, 0), s.rows, order[..k]).state;
    CrashedDeleteInv(sha, before, order[k], point, loose - Ids(order[..k]));
    var c := CrashedDelete(before, order[k], point);
    PartOfTransitive(Blobs(c.tree), Blobs(before.tree), Blobs(s.tree));
    assert Ids(order[..k + 1]) == Ids(order[..k]) + {order[k]};
  }

  /** The rows that may lack their object after a purge stopped at k. */
  ghost function StillLoose(rows: Rows, order: seq<UUID>, k: nat, loose: set<string>): set<string>
    requires k < |order|
  {
    var before := loose - Ids(order[..k]);
    if order[k] in rows then before + {order[k]} else before - {order[k]}
  }

  /** A purge at some moment that stopped while removing the row listed at k. */
  datatype Attempt = Attempt(now: int, order: seq<UUID>, k: nat, point: CrashPoint)

  /** A purge attempted several times up to a moment, every attempt stopping somewhere and the
      next one listing whatever has expired by then. */
  ghost predicate Attempts(s: State, attempts: seq<Attempt>, later: int, end: State)
    decreases |attempts|
  {
    if attempts == [] then s == end
    else
      var a := attempts[0];
      && a.now <= later && a.k < |a.order| && Lists(a.order, Expired(s.rows, a.now))
      && (forall id :: id in a.order ==> id in s.rows)
      && Attempts(CrashedPurge(s, a.order, a.k, a.point), attempts[1..], later, end)
  }

  /** What is left then: only rows that expire by that moment may lack their objects, and the
      rows that do not are all there. */
  lemma {:induction false} AttemptsLeave(sha: Bytes -> string, s: State, attempts: seq<Attempt>, later: int, end: State,
      loose: set<string>)
    returns (rest: set<string>)
    requires InvExcept(sha, s, loose) && loose <= Expired(s.rows, later) && Attempts(s, attempts, later, end)
    ensures InvExcept(sha, end, rest) && rest <= Expired(end.rows, later)
    ensures end.rows - Expired(end.rows, later) == s.rows - Expired(s.rows, later) && end.sessions == s.sessions
    ensures PartOf(Blobs(end.tree), Blobs(s.tree)) && Temps(end.tree) == Temps(s.tree)
    decreases |attempts|
  {
    hide InvExcept, Blobs, Temps, CrashedPurge;
    if attempts == [] {
      rest := loose;
    } else {
      var a := attempts[0];
      var c := CrashedPurge(s, a.order, a.k, a.point);
      CrashedPurgeInv(sha, s, a.order, a.k, a.point, loose);
      ExpiredRest(s.rows, a.now, later, a.order, if a.point.Finished? then a.k + 1 else a.k);
      StillExpired(s.rows, c.rows, later, a, loose);
      rest := AttemptsLeave(sha, c, attempts[1..], later, end, StillLoose(c.rows, a.order, a.k, loose));
      PartOfTransitive(Blobs(end.tree), Blobs(c.tree), Blobs(s.tree));
    }
  }

  lemma StillExpired(rows: Rows, rows': Rows, later: int, a: Attempt, loose: set<string>)
    requires a.now <= later && a.k < |a.order| && Lists(a.order, Expired(rows, a.now)) && loose <= Expired(rows, later)
    requires rows' == rows - Ids(if a.point.Finished? then a.order[..a.k + 1] else a.order[..a.k])
    ensures StillLoose(rows', a.order, a.k, loose) <= Expired(rows', later)
  {
    assert a.order[a.k] in a.order;
    assert Ids(a.order[..a.k + 1]) == Ids(a.order[..a.k]) + {a.order[a.k]};
    assert a.order[a.k] !in a.order[..a.k];
  }

  /** Purging until it comes to an end, after any number of attempts that stopped anywhere, leaves
      the rows and objects of one uninterrupted purge at that moment, and a store in order. */
  lemma PurgeConverges(sha: Bytes -> string, s: State, attempts: seq<Attempt>, end: State, later: int, again: seq<UUID>,
      whole: seq<UUID>, loose: set<string>)
    requires InvExcept(sha, s, loose) && loose <= Expired(s.rows, later) && Attempts(s, attempts, later, end)
    requires Lists(again, Expired(end.rows, later)) && Lists(whole, Expired(s.rows, later))
    ensures forall id :: id in again ==> id in end.rows
    ensures forall id :: id in whole ==> id in s.rows
    ensures var once, finally := PurgeExpired(s, whole).state, PurgeExpired(end, again).state;
      && Inv(sha, once) && Inv(sha, finally) && SameStore(once, finally) && once.tree.files == finally.tree.files
  {
    hide Shaped, Blobs, Temps, PurgeLoop, Attempts, RowsCanonical, SessionsOk, Refs;
    PurgeLeaves(sha, s, later, whole, loose);
    var rest := AttemptsLeave(sha, s, attempts, later, end, loose);
    PurgeLeaves(sha, end, later, again, rest);
    var once, finally := PurgeExpired(s, whole).state, PurgeExpired(end, again).state;
    PartOfTransitive(Blobs(finally.tree), Blobs(end.tree), Blobs(s.tree));
    BlobsDetermined(sha, Refs(once.rows), Blobs(once.tree), Blobs(finally.tree), Blobs(s.tree));
    SameObjects(once, finally);
  }

  /** Removing some expired rows first changes nothing about which rows remain after a later purge. */
  lemma ExpiredRest(rows: Rows, now: int, later: int, order: seq<UUID>, k: nat)
    requires Lists(order, Expired(rows, now)) && k <= |order| && now <= later
    ensures var rest := rows - Ids(order[..k]);
      rest - Expired(rest, later) == rows - Expired(rows, later)
  {
    assert forall x :: x in order[..k] ==> x in order;
  }

  lemma PartOfTransitive(a: map<Path, Bytes>, b: map<Path, Bytes>, c: map<Path, Bytes>)
    requires PartOf(a, b) && PartOf(b, c)
    ensures PartOf(a, c)
  {
  }

  /** An upload to this bucket leaves the doubtful row's place alone: it is not accepted, its
      bucket does not run through that place, or it reuses a stored object. */
  ghost predicate Spares(cfg: Config, s: State, doubtful: UUID, bucket: string, pick: Option<UUID>)
    requires doubtful in s.rows && (pick.Some? ==> pick.value in s.rows)
  {
    || !Accepted(cfg, s, bucket)
    || !(Home(s.rows[doubtful]) <= Segments(bucket))
    || (cfg.dedup && pick.Some? && Home(s.rows[pick.value]) in Blobs(s.tree))
  }

  /** An upload between a crash and the rerun leaves every row but the one in doubt with its
      object, the new one included, if and only if it leaves that row's place alone. The rerun
      then restores the full invariant. */
  lemma UploadThenRerun(cfg: Config, s: State, doubtful: UUID, input: UploadInput, id: UUID, now: int,
      pick: Option<UUID>)
    requires InvExcept(cfg.sha, s, {doubtful}) && doubtful in s.rows
    requires UploadTarget(input.bucket) && FreshId(s, id)
    requires LatestWithHash(s.rows, cfg.sha(input.content), pick)
    ensures var r := Upload(cfg, s, input, id, now, pick);
      && (InvExcept(cfg.sha, r.state, {doubtful}) <==> Spares(cfg, s, doubtful, input.bucket, pick))
      && (InvExcept(cfg.sha, r.state, {doubtful}) ==>
            && (r.result.Ok? ==> Home(r.result.value) in Blobs(r.state.tree))
            && Inv(cfg.sha, DeleteBlob(r.state, doubtful).state))
  {
    hide Shaped, Blobs, Temps, RowsCanonical, SessionsOk, UploadTarget, DeleteBlob, Upload, Home, EnsureBucket,
      ValidBucketName, Accepted, InvExcept, FreshId;
    FreshUnused(s, id);
    UploadKeepsIff(cfg, s, input, id, now, pick, {doubtful});
    assert RunsThrough(s, input.bucket, {doubtful}) <==> Home(s.rows[doubtful]) <= Segments(input.bucket);
    UploadKeepsRow(cfg, s, input, id, now, pick, doubtful);
    var r := Upload(cfg, s, input, id, now, pick);
    if InvExcept(cfg.sha, r.state, {doubtful}) {
      DeleteKeeps(cfg.sha, r.state, doubtful, {doubtful});
      assert {doubtful} - {doubtful} == NOBODY;
      if r.result.Ok? {
        TightRow(cfg.sha, r.state, {doubtful}, id);
      }
    }
  }

  lemma UploadKeepsRow(cfg: Config, s: State, input: UploadInput, id: UUID, now: int, pick: Option<UUID>, other: UUID)
    requires pick.Some? ==> pick.value in s.rows
    requires id !in s.rows && other in s.rows
    ensures var r := Upload(cfg, s, input, id, now, pick);
      && other in r.state.rows && other != id && r.state.rows[other] == s.rows[other]
      && (r.result.Ok? ==> id in r.state.rows && r.state.rows[id] == r.result.value)
  {
    hide Put, Delete, EnsureBucket, ExistsAt, ValidBucketName;
  }
}
