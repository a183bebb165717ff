/** The tables and the repositories that query and change them. */
module Repositories {
  import opened Wrappers
  import opened Paths
  import opened Store

  /** The shared database connection. */
  class Database {
    var blobs: Rows
    var uploads: Sessions

    constructor ()
      ensures blobs == map[] && uploads == map[]
    {
      blobs, uploads := map[], map[];
    }
  }

  /** One more row is the new pick when it matches and is newer than the old one. */
  lemma LatestExtends(rows: Rows, hash: string, pick: Option<UUID>, id: UUID, row: Blob)
    requires LatestWithHash(rows, hash, pick) && id !in rows
    ensures var newer := row.hash == hash && (pick.None? || rows[pick.value].createdAt < row.createdAt);
      LatestWithHash(rows[id := row], hash, if newer then Some(id) else pick)
  {
  }

  lemma NoRowsNoPick(hash: string)
    ensures LatestWithHash(map[], hash, None)
  {
  }

  lemma LatestMeans(rows: Rows, hash: string, pick: Option<UUID>)
    requires LatestWithHash(rows, hash, pick)
    ensures pick.Some? <==> exists id :: id in rows && rows[id].hash == hash
    ensures pick.Some? ==> pick.value in rows && rows[pick.value].hash == hash
    ensures pick.Some? ==> forall id :: id in rows && rows[id].hash == hash ==>
      rows[id].createdAt <= rows[pick.value].createdAt
  {
  }

  class BlobRepository {
    const db: Database

    constructor (db: Database)
      ensures this.db == db
    {
      this.db := db;
    }

    method Create(id: UUID, blob: Blob) returns (ok: bool)
      modifies db
      ensures ok == (id !in old(db.blobs))
      ensures db.blobs == (if ok then old(db.blobs)[id := blob] else old(db.blobs)) && db.uploads == old(db.uploads)
    {
      ok := id !in db.blobs;
      if ok {
        db.blobs := db.blobs[id := blob];
      }
    }

    method GetByID(id: UUID) returns (r: Option<Blob>)
      ensures r == if id in db.blobs then Some(db.blobs[id]) else None
    {
      r := if id in db.blobs then Some(db.blobs[id]) else None;
    }

    /** The most recent row with the hash. */
    method GetByHash(hash: string) returns (pick: Option<UUID>)
      ensures LatestWithHash(db.blobs, hash, pick)
      ensures pick.Some? <==> exists id :: id in db.blobs && db.blobs[id].hash == hash
      ensures pick.Some? ==> pick.value in db.blobs && db.blobs[pick.value].hash == hash
      ensures pick.Some? ==> forall id :: id in db.blobs && db.blobs[id].hash == hash ==>
        db.blobs[id].createdAt <= db.blobs[pick.value].createdAt
    {
      hide LatestWithHash;
      pick := None;
      assert db.blobs - db.blobs.Keys == map[];
      NoRowsNoPick(hash);
      var rest := db.blobs.Keys;
      while rest != {}
        invariant rest <= db.blobs.Keys
        invariant LatestWithHash(db.blobs - rest, hash, pick) && (pick.Some? ==> pick.value in db.blobs - rest)
        decreases |rest|
      {
        var id :| id in rest;
        LatestExtends(db.blobs - rest, hash, pick, id, db.blobs[id]);
        assert db.blobs - (rest - {id}) == (db.blobs - rest)[id := db.blobs[id]];
        if db.blobs[id].hash == hash && (pick.None? || db.blobs[pick.value].createdAt < db.blobs[id].createdAt) {
          pick := Some(id);
        }
        rest := rest - {id};
      }
      assert db.blobs - {} == db.blobs;
      LatestMeans(db.blobs, hash, pick);
    }

    method Update(id: UUID, blob: Blob)
      modifies db
      ensures db.blobs == old(db.blobs)[id := blob] && db.uploads == old(db.uploads)
    {
      db.blobs := db.blobs[id := blob];
    }

    method Delete(id: UUID)
      modifies db
      ensures db.blobs == old(db.blobs) - {id} && db.uploads == old(db.uploads)
    {
      db.blobs := db.blobs - {id};
    }

    method FindByPath(path: string) returns (ids: set<UUID>)
      ensures ids == Sharers(db.blobs, path)
      ensures forall id :: id in ids <==> id in db.blobs && db.blobs[id].path == path
    {
      ids := set id | id in db.blobs && db.blobs[id].path == path;
    }

    method FindExpired(before: int) returns (found: Rows, order: seq<UUID>)
      ensures found == db.blobs && Lists(order, Expired(db.blobs, before))
      ensures forall i, j :: 0 <= i < j < |order| ==> order[i] != order[j]
      ensures forall id :: id in order <==>
        id in db.blobs && db.blobs[id].expiresAt.Some? && db.blobs[id].expiresAt.value <= before
    {
      found := db.blobs;
      order := InSomeOrder(
        set id | id in db.blobs && db.blobs[id].expiresAt.Some? && db.blobs[id].expiresAt.value <= before);
    }
  }

  /** The elements of a query result, each once. */
  method InSomeOrder(ids: set<UUID>) returns (order: seq<UUID>)
    ensures Lists(order, ids)
  {
    order := [];
    var rest := ids;
    while rest != {}
      invariant rest <= ids && Lists(order, ids - rest)
      decreases |rest|
    {
      var id :| id in rest;
      order := order + [id];
      rest := rest - {id};
    }
  }

  class MultipartRepository {
    const db: Database

    constructor (db: Database)
      ensures this.db == db
    {
      this.db := db;
    }

    method Create(id: UUID, upload: Session) returns (ok: bool)
      modifies db
      ensures ok == (id !in old(db.uploads))
      ensures db.uploads == (if ok then old(db.uploads)[id := upload] else old(db.uploads)) && db.blobs == old(db.blobs)
    {
      ok := id !in db.uploads;
      if ok {
        db.uploads := db.uploads[id := upload];
      }
    }

    method GetByID(id: UUID) returns (r: Option<Session>)
      ensures r == if id in db.uploads then Some(db.uploads[id]) else None
    {
      r := if id in db.uploads then Some(db.uploads[id]) else None;
    }

    /** The whole list is overwritten, whatever it holds by now. */
    method UpdateChunks(id: UUID, chunks: seq<int>)
      modifies db
      ensures db.uploads
        == (if id in old(db.uploads) then old(db.uploads)[id := old(db.uploads)[id].(chunksDone := chunks)]
                             else old(db.uploads))
      ensures db.blobs == old(db.blobs)
    {
      if id in db.uploads {
        db.uploads := db.uploads[id := db.uploads[id].(chunksDone := chunks)];
      }
    }

    method MarkCompleted(id: UUID)
      modifies db
      ensures db.uploads
        == (if id in old(db.uploads) then old(db.uploads)[id := old(db.uploads)[id].(completed := true)]
                             else old(db.uploads))
      ensures db.blobs == old(db.blobs)
    {
      if id in db.uploads {
        db.uploads := db.uploads[id := db.uploads[id].(completed := true)];
      }
    }

    method FindIncompleteOlderThan(cutoff: int) returns (order: seq<UUID>)
      ensures Lists(order, Stale(db.uploads, cutoff))
      ensures forall i, j :: 0 <= i < j < |order| ==> order[i] != order[j]
      ensures forall id :: id in order <==>
        id in db.uploads && !db.uploads[id].completed && db.uploads[id].createdAt < cutoff
    {
      order := InSomeOrder(set id | id in db.uploads && !db.uploads[id].completed && db.uploads[id].createdAt < cutoff);
    }

    method Delete(id: UUID)
      modifies db
      ensures db.uploads == old(db.uploads) - {id} && db.blobs == old(db.blobs)
    {
      db.uploads := db.uploads - {id};
    }
  }
}
