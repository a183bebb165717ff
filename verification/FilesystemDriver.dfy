/** The filesystem driver, which changes its directory tree in place. */
module FilesystemDrivers {
  import opened Wrappers
  import opened Paths
  import opened Trees

  class FilesystemDriver {
    var dirs: set<Path>
    var files: map<Path, Bytes>

    ghost function Model(): Tree
      reads this
    {
      Tree(dirs, files)
    }

    constructor ()
      ensures Model() == Tree({[]}, map[])
    {
      dirs, files := {[]}, map[];
    }

    /** `os.MkdirAll` of the parent directory. */
    method MakeParentsOf(p: Path) returns (error: Option<StorageError>)
      modifies this
      ensures MakeParents(old(Model()), p) == Done(Model(), error)
    {
      if f :| f in files && f < p {
        return Some(NotDirectory);
      }
      dirs := dirs + Ancestors(p);
      error := None;
    }

    /** `os.Create` after the parents are made. */
    method CreateAt(p: Path, content: Bytes) returns (error: Option<StorageError>)
      requires p != []
      modifies this
      ensures Write(old(Model()), p, content) == Done(Model(), error)
    {
      error := MakeParentsOf(p);
      if error == None {
        if p in dirs {
          return Some(IsDirectory);
        }
        files := files[p := content];
      }
    }

    /** Put: the file is created, what the reader delivers is copied into it, and a reader that
        fails leaves it there. */
    method Put(bucket: string, key: string, content: Bytes, broken: bool := false) returns (error: Option<StorageError>)
      modifies this
      ensures Trees.Put(old(Model()), bucket, key, content, broken) == Done(Model(), error)
    {
      var at := Locate(bucket, key);
      if at.None? {
        return Some(InvalidPath);
      }
      error := CreateAt(at.value, []);
      if error.None? {
        files := files[at.value := content];
        if broken {
          return Some(ReadFailed);
        }
      }
    }

    /** Create, returning the place the writer writes to. */
    method Create(bucket: string, key: string) returns (handle: Option<Path>, error: Option<StorageError>)
      modifies this
      ensures Trees.Put(old(Model()), bucket, key, []) == Done(Model(), error)
      ensures handle == if error.None? then Locate(bucket, key) else None
      ensures handle.Some? ==> handle.value in files && files[handle.value] == []
    {
      error := Put(bucket, key, []);
      handle := if error.None? then Locate(bucket, key) else None;
    }

    /** A write through an open writer. */
    method Append(handle: Path, data: Bytes)
      requires handle in files
      modifies this
      ensures Model() == old(Model()).(files := old(files)[handle := old(files)[handle] + data])
    {
      files := files[handle := files[handle] + data];
    }

    method Open(bucket: string, key: string) returns (r: Result<Bytes, StorageError>)
      ensures r == Trees.Open(Model(), bucket, key)
    {
      var at := Locate(bucket, key);
      if at.None? {
        return Err(InvalidPath);
      }
      if at.value in files {
        return Ok(files[at.value]);
      }
      r := if at.value in dirs then Err(IsDirectory) else Err(NotExist);
    }

    method Stat(bucket: string, key: string) returns (r: Result<nat, StorageError>)
      ensures r == Trees.Stat(Model(), bucket, key)
    {
      var at := Locate(bucket, key);
      if at.None? {
        return Err(InvalidPath);
      }
      if at.value in files {
        return Ok(|files[at.value]|);
      }
      r := if at.value in dirs then Ok(0) else Err(NotExist);
    }

    method Exists(bucket: string, key: string) returns (found: bool)
      ensures found == Trees.Exists(Model(), bucket, key)
    {
      var at := Locate(bucket, key);
      found := at.Some? && (at.value in files || at.value in dirs);
    }

    predicate HasEntriesIn(d: Path)
      reads this
    {
      HasEntries(Tree(dirs, files), d)
    }

    /** pruneEmptyParents: climb while the directory is empty, never removing the base. */
    method PruneEmptyParents(p: Path)
      requires p != []
      modifies this
      ensures Model() == PruneParents(old(Model()), p)
    {
      var dir := Parent(p);
      while dir != []
        invariant Prune(Model(), dir, |dir|) == PruneParents(old(Model()), p)
        decreases |dir|
      {
        if dir !in dirs {
          return;
        }
        if HasEntriesIn(dir) {
          return;
        }
        dirs := dirs - {dir};
        dir := Parent(dir);
      }
    }

    method Delete(bucket: string, key: string) returns (error: Option<StorageError>)
      modifies this
      ensures Trees.Delete(old(Model()), bucket, key) == Done(Model(), error)
    {
      var at := Locate(bucket, key);
      if at.None? {
        return Some(InvalidPath);
      }
      var p := at.value;
      if p in files {
        files := files - {p};
      } else if p in dirs {
        if HasEntriesIn(p) {
          return Some(NotEmpty);
        }
        dirs := dirs - {p};
      } else if f :| f in files && f < p {
        return Some(NotDirectory);
      }
      PruneEmptyParents(p);
      error := None;
    }

    /** `os.Rename`. */
    method RenameAt(src: Path, dst: Path) returns (error: Option<StorageError>)
      requires src != [] && dst != []
      modifies this
      ensures dst in old(dirs) ==> error.Some?
      ensures src !in old(files) && src !in old(dirs) ==> error.Some?
      ensures src !in old(files) && (src < dst || dst in old(files)) ==> error.Some?
      ensures error.Some? ==> Model() == old(Model())
      ensures error.Some? && src in old(files) ==> dst in old(dirs)
      ensures error.Some? && src in old(dirs) ==> dst in old(dirs) || src < dst || dst in old(files)
      ensures error.None? && src in old(files) ==>
        Model() == old(Model()).(files := (old(files) - {src})[dst := old(files)[src]])
      ensures error.None? && src !in old(files) ==> Model() == MoveSubtree(old(Model()), src, dst)
    {
      if src !in files && src !in dirs {
        return Some(NotExist);
      }
      if dst in dirs {
        return Some(IsDirectory);
      }
      if src in files {
        var content := files[src];
        files := (files - {src})[dst := content];
        return None;
      }
      if src < dst || dst in files {
        return Some(NotDirectory);
      }
      dirs, files := set d | d in dirs :: Forth(d, src, dst), Relocated(files, src, dst);
      return None;
    }

    /** Move: rename, or else copy and delete. */
    method Move(srcBucket: string, srcKey: string, dstBucket: string,
        dstKey: string) returns (error: Option<StorageError>)
      modifies this
      ensures Trees.Move(old(Model()), srcBucket, srcKey, dstBucket, dstKey) == Done(Model(), error)
    {
      hide PruneParents, Relocated;
      var src := Locate(srcBucket, srcKey);
      var dst := Locate(dstBucket, dstKey);
      if src.None? || dst.None? {
        return Some(InvalidPath);
      }
      error := MakeParentsOf(dst.value);
      if error.Some? {
        return;
      }
      var failed := RenameAt(src.value, dst.value);
      if failed.None? {
        PruneEmptyParents(src.value);
        return None;
      }
      if src.value !in files && src.value !in dirs {
        return Some(NotExist);
      }
      if dst.value in dirs {
        return Some(IsDirectory);
      }
      files := files[dst.value := []];
      return Some(IsDirectory);
    }

    method RemoveTree(bucket: string, prefix: string) returns (error: Option<StorageError>)
      modifies this
      ensures Trees.RemoveTree(old(Model()), bucket, prefix) == Done(Model(), error)
    {
      var at := Locate(bucket, prefix);
      if at.None? {
        return Some(InvalidPath);
      }
      var p := at.value;
      if f :| f in files && f < p {
        return Some(NotDirectory);
      }
      dirs := set d | d in dirs && !(p <= d);
      files := map f | f in files && !(p <= f) :: files[f];
      error := None;
    }

    /** EnsureBucket, as the driver's source has it or as its interface promises it. */
    method EnsureBucket(promised: bool, bucket: string) returns (error: Option<StorageError>)
      modifies this
      ensures Done(Model(), error)
           == if promised then EnsureBucketAsPromised(old(Model()), bucket)
             else EnsureBucketAsWritten(old(Model()), bucket)
    {
      if promised {
        if !ValidComponent(bucket) {
          return Some(InvalidPath);
        }
        error := MakeParentsOf(Segments(bucket) + [""]);
      } else {
        var at := Locate(bucket, "");
        if at.None? {
          return Some(InvalidPath);
        }
        error := MakeParentsOf(at.value + [""]);
      }
    }
  }
}
