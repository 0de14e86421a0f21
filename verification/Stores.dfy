/** The store one transaction works on: every table a field, every statement a method.
    A statement the schema's unique indexes could refuse requires that they would not. */
module Stores {
  import opened Common
  import opened Paths
  import opened Tables

  /** What RETURNING hands back for a withdrawn document. */
  datatype Row = Row(id: nat, version: nat)

  lemma TombstoneTouchesDocs(db: Db, ids: set<nat>)
    ensures Tombstone(db, ids) == db.(docs := Tombstone(db, ids).docs)
  {
  }

  class Store {
    var db: Db
    /** What the open transaction began on. */
    var begun: Db

    constructor ()
      ensures db == EMPTY_DB && begun == db
    {
      db, begun := EMPTY_DB, EMPTY_DB;
    }

    method Begin()
      modifies this`begun
      ensures begun == db
    {
      begun := db;
    }

    /** ROLLBACK: everything since Begin is undone, but sequences are not transactional: what was drawn stays drawn. */
    method Rollback()
      modifies this`db
      ensures db == begun.(epoch := old(db).epoch, nextDoc := old(db).nextDoc, nextVersion := old(db).nextVersion)
    {
      db := begun.(epoch := db.epoch, nextDoc := db.nextDoc, nextVersion := db.nextVersion);
    }

    /** Other transactions commit; this one, which has written nothing yet, sees what they left. */
    method OthersCommit(committed: Db)
      requires db == begun
      modifies this
      ensures db == committed && begun == committed
    {
      db, begun := committed, committed;
    }

    method SetWatermark(at: int)
      modifies this`db
      ensures db == Tables.SetWatermark(old(db), at)
    {
      if at > db.watermark {
        db := db.(watermark := at);
      }
    }

    method NextScanEpoch() returns (e: int)
      modifies this`db
      ensures db == Tables.NextScanEpoch(old(db)) && e == db.epoch
    {
      db := db.(epoch := db.epoch + 1);
      e := db.epoch;
    }

    method UpsertObservation(k: Key, o: Observation)
      modifies this`db
      ensures db == Tables.UpsertObservation(old(db), k, o)
    {
      db := db.(obs := db.obs[k := o]);
    }

    method DeleteObservation(k: Key)
      modifies this`db
      ensures db == Tables.DeleteObservation(old(db), k)
    {
      db := db.(obs := db.obs - {k});
    }

    method DeleteObservationSubtree(mp: int, prefix: Path)
      modifies this`db
      ensures db == Tables.DeleteObservationSubtree(old(db), mp, prefix)
    {
      db := db.(obs := map k | k in db.obs && !Under(k, mp, prefix) :: db.obs[k]);
    }

    method MoveObservationSubtree(mp: int, oldPrefix: Path, newPrefix: Path)
      requires ObservationsFree(db, mp, oldPrefix, newPrefix)
      modifies this`db
      ensures db == Tables.MoveObservationSubtree(old(db), mp, oldPrefix, newPrefix)
    {
      db := db.(obs := Tables.MoveObservationSubtree(db, mp, oldPrefix, newPrefix).obs);
    }

    method SweepScanEpoch(mp: int, root: Path, e: int) returns (gone: seq<Path>)
      modifies this`db
      ensures db == Tables.SweepScanEpoch(old(db), mp, root, e)
      ensures forall p :: p in gone <==> p in Gone(old(db), mp, root, e)
      ensures forall i, j :: 0 <= i < j < |gone| ==> gone[i] != gone[j]
    {
      var left := Gone(db, mp, root, e);
      gone := [];
      while left != {}
        invariant forall p :: p in Gone(db, mp, root, e) <==> p in left || p in gone
        invariant forall p :: p in gone ==> p !in left
        invariant forall i, j :: 0 <= i < j < |gone| ==> gone[i] != gone[j]
        decreases left
      {
        var p :| p in left;
        left, gone := left - {p}, gone + [p];
      }
      db := db.(obs := map k | k in db.obs && !Unseen(k, db.obs[k], mp, root, e) :: db.obs[k]);
    }

    method FindLiveDocumentByPath(mp: int, path: Path) returns (id: nat, found: bool)
      ensures FindByPath(db, mp, path) == if found then Some(id) else None
    {
      var r := FindByPath(db, mp, path);
      id, found := if r.Some? then r.value else 0, r.Some?;
    }

    method FindLiveDocumentByInode(mp: int, dev: int, ino: int) returns (id: nat, found: bool)
      ensures FindByInode(db, mp, dev, ino) == if found then Some(id) else None
    {
      var r := FindByInode(db, mp, dev, ino);
      id, found := if r.Some? then r.value else 0, r.Some?;
    }

    method FindLiveDocumentByContent(mp: int, hash: string) returns (id: nat, found: bool)
      ensures FindByContent(db, mp, hash) == if found then Some(id) else None
    {
      var r := FindByContent(db, mp, hash);
      id, found := if r.Some? then r.value else 0, r.Some?;
    }

    method CreateDocument(mp: int, path: Path, dev: int, ino: int) returns (id: nat)
      requires UniqueLive(Tables.CreateDocument(db, mp, path, dev, ino))
      modifies this`db
      ensures db == Tables.CreateDocument(old(db), mp, path, dev, ino) && id == old(db).nextDoc
    {
      id := db.nextDoc;
      db := db.(docs := db.docs[id := Document(mp, path, dev, ino, 0, true)]);
      db := db.(nextDoc := db.nextDoc + 1);
    }

    method MoveDocument(id: nat, path: Path, dev: int, ino: int)
      requires id in db.docs
      requires UniqueLive(Tables.MoveDocument(db, id, path, dev, ino))
      modifies this`db
      ensures db == Tables.MoveDocument(old(db), id, path, dev, ino)
    {
      db := db.(docs := db.docs[id := db.docs[id].(path := path, dev := dev, ino := ino)]);
    }

    /** An INSERT the index refuses: its id stays drawn. */
    method RefuseDocument()
      modifies this`db
      ensures db == old(db).(nextDoc := old(db).nextDoc + 1)
    {
      db := db.(nextDoc := db.nextDoc + 1);
    }

    method MoveDocumentSubtree(mp: int, oldPrefix: Path, newPrefix: Path)
      requires DocumentsFree(db, mp, oldPrefix, newPrefix)
      modifies this`db
      ensures db == Tables.MoveDocumentSubtree(old(db), mp, oldPrefix, newPrefix)
    {
      db := db.(docs := Tables.MoveDocumentSubtree(db, mp, oldPrefix, newPrefix).docs);
    }

    method TombstoneDocument(id: nat)
      modifies this`db
      ensures db == Tombstone(old(db), {id})
    {
      db := db.(docs := Tombstone(db, {id}).docs);
    }

    method TombstoneDocumentByPath(mp: int, path: Path) returns (id: nat, version: nat, found: bool)
      requires UniqueLive(db)
      modifies this`db
      ensures db == Tombstone(old(db), DocsAt(old(db), mp, path))
      ensures found <==> DocsAt(old(db), mp, path) != {}
      ensures found ==> DocsAt(old(db), mp, path) == {id} && version == old(db).docs[id].version
    {
      var r := FindByPath(db, mp, path);
      found := r.Some?;
      id, version := 0, 0;
      if found {
        id := r.value;
        version := db.docs[id].version;
        assert LiveAt(db, id, mp, path);
        forall j | j in DocsAt(db, mp, path) ensures j == id {
          assert LiveAt(db, j, mp, path);
        }
      }
      db := db.(docs := Tombstone(db, DocsAt(db, mp, path)).docs);
    }

    method TombstoneDocumentSubtree(mp: int, prefix: Path) returns (rows: seq<Row>)
      modifies this`db
      ensures db == Tombstone(old(db), DocsUnder(old(db), mp, prefix))
      ensures var ids := Listing(DocsUnder(old(db), mp, prefix));
              |rows| == |ids| && forall i :: 0 <= i < |ids| ==> rows[i].id == ids[i]
      ensures forall i :: 0 <= i < |rows| ==> rows[i].id in old(db).docs && rows[i].version == old(db).docs[rows[i].id].version
    {
      var hits := DocsUnder(db, mp, prefix);
      assert forall id :: id in hits ==> id in db.docs;
      hide Tombstone, DocsUnder, Listing;
      var ids, table := Listing(hits), db.docs;
      rows := seq(|ids|, i requires 0 <= i < |ids| => Row(ids[i], if ids[i] in table then table[ids[i]].version else 0));
      TombstoneTouchesDocs(db, hits);
      db := db.(docs := Tombstone(db, hits).docs);
    }

    method UpsertContentVersion(hash: string, size: int) returns (version: nat)
      modifies this`db
      ensures db == Tables.UpsertContentVersion(old(db), hash, size)
      ensures hash in db.versions && version == db.versions[hash].id
    {
      if hash in db.versions {
        db := db.(versions := db.versions[hash := db.versions[hash].(size := size)]);
      } else {
        db := db.(versions := db.versions[hash := ContentVersion(db.nextVersion, size)]);
        db := db.(nextVersion := db.nextVersion + 1);
      }
      version := db.versions[hash].id;
    }

    /** The compare-and-swap: no row is touched, and none reported, when the expectation no longer holds. */
    method SetDocumentCurrentVersion(id: nat, expected: nat, version: nat) returns (swapped: bool)
      requires id in db.docs
      modifies this`db
      ensures swapped <==> old(db).docs[id].version == expected
      ensures db == if swapped then SetVersion(old(db), id, version) else old(db)
    {
      swapped := db.docs[id].version == expected;
      if swapped {
        db := db.(docs := db.docs[id := db.docs[id].(version := version)]);
      }
    }

    method MarkExtractionPending(version: nat)
      modifies this`db
      ensures db == Tables.MarkExtractionPending(old(db), version)
    {
      db := db.(extractions := db.extractions + {version});
    }

    method EnqueueIngestPath(mp: int, path: Path, trigger: Trigger)
      modifies this`db
      ensures db == EnqueueIngest(old(db), IngestJob(mp, path, trigger))
    {
      db := db.(ingest := db.ingest + multiset{IngestJob(mp, path, trigger)});
    }

    method EnqueueExtractJob(version: nat)
      modifies this`db
      ensures db == EnqueueExtract(old(db), version)
    {
      db := db.(extract := db.extract + multiset{version});
    }

    method EnqueueInvalidateThumbnails(doc: nat, version: nat)
      modifies this`db
      ensures db == EnqueueInvalidate(old(db), Invalidation(doc, version))
    {
      db := db.(invalidate := db.invalidate + multiset{Invalidation(doc, version)});
    }
  }
}
