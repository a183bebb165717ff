/** References between named rows and stored objects, apart from how paths are written. */
module References {
  import opened Paths
  import opened Trees

  /** What a row says about its object: where it is and what it hashes to. */
  datatype Ref = Ref(home: Path, hash: string)

  type Refs = map<string, Ref>
  type Objects = map<Path, Bytes>

  /** Every reference outside `loose` finds its object, found objects have the promised hash,
      every object is referenced, and an object named after a row belongs to that row. */
  ghost predicate InStep(sha: Bytes -> string, refs: Refs, objects: Objects, loose: set<string>) {
    && (forall id :: id in refs && id !in loose ==> refs[id].home in objects)
    && (forall id :: id in refs && refs[id].home in objects ==> sha(objects[refs[id].home]) == refs[id].hash)
    && (forall f :: f in objects ==> Referenced(refs, f))
    && (forall f :: f in objects && f != [] && Last(f) in refs ==> refs[Last(f)].home == f)
  }

  ghost predicate Referenced(refs: Refs, f: Path) {
    exists id :: id in refs && refs[id].home == f
  }

  /** No reference and no object bears this name. */
  ghost predicate Unused(refs: Refs, objects: Objects, id: string) {
    && id !in refs
    && (forall x :: x in refs && refs[x].home != [] ==> Last(refs[x].home) != id)
    && (forall f :: f in objects && f != [] ==> Last(f) != id)
  }

  /** Unless only `except` referenced it, a place stays referenced after a change. */
  lemma StillReferenced(refs: Refs, refs': Refs, f: Path, except: string)
    requires Referenced(refs, f) && refs.Keys - {except} <= refs'.Keys
    requires forall x :: x in refs && x != except ==> refs'[x] == refs[x]
    requires except in refs && refs[except].home == f ==> Referenced(refs', f)
    ensures Referenced(refs', f)
  {
    var x :| x in refs && refs[x].home == f;
    if x != except {
      assert refs'[x].home == f;
    }
  }

  /** A new row with its own new object. */
  lemma AddOwn(sha: Bytes -> string, refs: Refs, objects: Objects, loose: set<string>, id: string, own: Path,
      content: Bytes)
    requires InStep(sha, refs, objects, loose) && Unused(refs, objects, id)
    requires own != [] && Last(own) == id
    ensures InStep(sha, refs[id := Ref(own, sha(content))], objects[own := content], loose)
  {
    var refs', objects' := refs[id := Ref(own, sha(content))], objects[own := content];
    assert refs'[id].home == own;
    forall f | f in objects' ensures Referenced(refs', f) {
      if f != own {
        StillReferenced(refs, refs', f, id);
      }
    }
  }

  /** A new row that shares the object of another row with the same hash. */
  lemma AddShared(sha: Bytes -> string, refs: Refs, objects: Objects, loose: set<string>, id: string, other: string)
    requires InStep(sha, refs, objects, loose) && Unused(refs, objects, id)
    requires other in refs && refs[other].home in objects
    ensures InStep(sha, refs[id := refs[other]], objects, loose)
  {
    var refs' := refs[id := refs[other]];
    forall f | f in objects ensures Referenced(refs', f) {
      StillReferenced(refs, refs', f, id);
    }
  }

  /** A row goes and another row keeps its object. */
  lemma DropShared(sha: Bytes -> string, refs: Refs, objects: Objects, loose: set<string>, id: string, other: string)
    requires InStep(sha, refs, objects, loose) && id in refs
    requires other in refs && other != id && refs[other].home == refs[id].home
    ensures InStep(sha, refs - {id}, objects, loose - {id})
  {
    var refs' := refs - {id};
    assert refs'[other].home == refs[id].home;
    forall f | f in objects ensures Referenced(refs', f) {
      StillReferenced(refs, refs', f, id);
    }
  }

  /** A row goes and takes the object nobody else references with it. */
  lemma DropOwn(sha: Bytes -> string, refs: Refs, objects: Objects, loose: set<string>, id: string)
    requires InStep(sha, refs, objects, loose) && id in refs
    requires forall x :: x in refs && x != id ==> refs[x].home != refs[id].home
    ensures InStep(sha, refs - {id}, objects - {refs[id].home}, loose - {id})
  {
    var refs' := refs - {id};
    forall f | f in objects - {refs[id].home} ensures Referenced(refs', f) {
      StillReferenced(refs, refs', f, id);
    }
  }

  /** A row and the object only it references move to a new place named after the row. */
  lemma MoveOwn(sha: Bytes -> string, refs: Refs, objects: Objects, id: string, dst: Path)
    requires InStep(sha, refs, objects, {}) && id in refs
    requires forall x :: x in refs && x != id ==> refs[x].home != refs[id].home
    requires dst != [] && Last(dst) == id
    ensures refs[id].home in objects
    ensures var src := refs[id].home;
      InStep(sha, refs[id := Ref(dst, refs[id].hash)], (objects - {src})[dst := objects[src]], {})
  {
    var src := refs[id].home;
    var refs', objects' := refs[id := Ref(dst, refs[id].hash)], (objects - {src})[dst := objects[src]];
    assert refs'[id].home == dst;
    forall x | x in refs && x != id ensures refs[x].home in objects' && refs[x].home != src && refs[x].home != dst {
    }
    forall f | f in objects' ensures Referenced(refs', f) {
      if f != dst {
        StillReferenced(refs, refs', f, id);
      }
    }
  }

  /** Names that stay unused while others come, go and move. */
  lemma UnusedAfterOwn(refs: Refs, objects: Objects, id: string, ref: Ref, content: Bytes, x: string)
    requires Unused(refs, objects, x) && x != id && ref.home != [] && Last(ref.home) == id
    ensures Unused(refs[id := ref], objects[ref.home := content], x)
  {
  }

  lemma UnusedAfterShared(refs: Refs, objects: Objects, id: string, other: string, x: string)
    requires Unused(refs, objects, x) && x != id && other in refs
    ensures Unused(refs[id := refs[other]], objects, x)
  {
  }

  lemma UnusedAfterDrop(refs: Refs, objects: Objects, id: string, objects': Objects, x: string)
    requires Unused(refs, objects, x) && objects'.Keys <= objects.Keys
    ensures Unused(refs - {id}, objects', x)
  {
  }

  lemma UnusedAfterMove(refs: Refs, objects: Objects, id: string, ref: Ref, objects': Objects, x: string)
    requires Unused(refs, objects, x) && id in refs && ref.home != [] && Last(ref.home) == id
    requires objects'.Keys <= objects.Keys + {ref.home}
    ensures Unused(refs[id := ref], objects', x)
  {
  }

  lemma UnusedFewerObjects(refs: Refs, objects: Objects, objects': Objects, x: string)
    requires Unused(refs, objects, x) && objects'.Keys <= objects.Keys
    ensures Unused(refs, objects', x)
  {
  }

  /** An object only one row references goes before its row does: that row becomes loose too. */
  lemma LoseOwn(sha: Bytes -> string, refs: Refs, objects: Objects, loose: set<string>, id: string)
    requires InStep(sha, refs, objects, loose) && id in refs
    requires forall x :: x in refs && x != id ==> refs[x].home != refs[id].home
    ensures InStep(sha, refs, objects - {refs[id].home}, loose + {id})
  {
    forall f | f in objects - {refs[id].home} ensures Referenced(refs, f) {
      assert Referenced(refs, f);
    }
  }
}
