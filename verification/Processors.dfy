/** The promotion job as it runs: a read, a hash, and up to three attempts against whatever others commit. */
module Processors {
  import opened Common
  import opened Paths
  import opened Tables
  import opened Reconcile
  import opened Ledger
  import opened LivePaths
  import opened Attempts
  import opened Reconcilers
  import Races

  /** What hashing the file came to. */
  datatype Hashed = Vanished | Unreadable | NotIndexed | Digest(digest: string, size: int)

  class Processor {
    const r: Reconciler

    constructor (r: Reconciler)
      ensures this.r == r
    {
      this.r := r;
    }

    /** The reads of identity resolution. */
    method Find(mp: int, path: Path, o: Observation, digest: string) returns (target: Target)
      ensures target == Look(r.tx.db, mp, path, o, digest)
    {
      var place := Some(Place(path, o.dev, o.ino));
      var doc, found := r.tx.FindLiveDocumentByPath(mp, path);
      if found {
        var d := r.tx.db.docs[doc];
        return Found(doc, d.version, if d.dev != o.dev || d.ino != o.ino then place else None);
      }
      if o.ino != 0 {
        doc, found := r.tx.FindLiveDocumentByInode(mp, o.dev, o.ino);
        if found {
          return Found(doc, r.tx.db.docs[doc].version, place);
        }
      }
      doc, found := r.tx.FindLiveDocumentByContent(mp, digest);
      if found {
        return Found(doc, r.tx.db.docs[doc].version, place);
      }
      return Absent(mp, path, o.dev, o.ino);
    }

    /** MoveDocument on whatever row it finds; the index may refuse it. */
    method Repath(doc: nat, place: Place) returns (accepted: bool)
      requires UniqueLive(r.tx.db) && doc in r.tx.db.docs
      modifies r.tx`db
      ensures accepted <==> !Taken(old(r.tx.db), doc, Some(place))
      ensures r.tx.db == if accepted then Placed(old(r.tx.db), doc, Some(place)) else old(r.tx.db)
    {
      accepted := !Taken(r.tx.db, doc, Some(place));
      if accepted {
        PlacedUnique(r.tx.db, doc, Some(place));
        r.tx.MoveDocument(doc, place.path, place.dev, place.ino);
      }
    }

    method Create(mp: int, path: Path, dev: int, ino: int) returns (doc: nat, accepted: bool)
      requires UniqueLive(r.tx.db) && FreshIds(r.tx.db)
      modifies r.tx`db
      ensures accepted <==> DocsAt(old(r.tx.db), mp, path) == {}
      ensures doc == old(r.tx.db).nextDoc
      ensures r.tx.db == if accepted then CreateDocument(old(r.tx.db), mp, path, dev, ino) else old(r.tx.db).(nextDoc := doc + 1)
    {
      accepted := DocsAt(r.tx.db, mp, path) == {};
      doc := r.tx.db.nextDoc;
      if accepted {
        FreePathUnique(r.tx.db, mp, path, dev, ino);
        doc := r.tx.CreateDocument(mp, path, dev, ino);
      } else {
        r.tx.RefuseDocument();
      }
    }

    /** The statements after the document's row stands where it should; false is a lost swap, not yet rolled
        back. */
    method SwapVersion(doc: nat, superseded: nat, digest: string, size: int) returns (outcome: Outcome)
      requires doc in r.tx.db.docs
      modifies r.tx`db
      ensures outcome != Lost ==> (r.tx.db, outcome) == Swap(old(r.tx.db), doc, superseded, None, digest, size)
      ensures outcome == Lost ==> Swap(old(r.tx.db), doc, superseded, None, digest, size).1 == Lost
                                  && r.tx.db == UpsertContentVersion(old(r.tx.db), digest, size)
    {
      var version := r.tx.UpsertContentVersion(digest, size);
      if superseded == version {
        return Unchanged;
      }
      var swapped := r.tx.SetDocumentCurrentVersion(doc, superseded, version);
      if !swapped {
        return Lost;
      }
      r.tx.MarkExtractionPending(version);
      r.tx.EnqueueExtractJob(version);
      if superseded != 0 {
        r.tx.EnqueueInvalidateThumbnails(doc, superseded);
      }
      return Won;
    }

    /** The writes of an attempt, on the state they find; one that fails or is lost is rolled back. */
    method WriteFound(doc: nat, seen: nat, place: Option<Place>, digest: string, size: int) returns (outcome: Outcome)
      requires UniqueLive(r.tx.db) && r.tx.db == r.tx.begun && doc in r.tx.db.docs
      modifies r.tx`db
      ensures (r.tx.db, outcome) == Swap(old(r.tx.db), doc, seen, place, digest, size)
    {
      ghost var was := r.tx.db;
      PlacedSwap(was, doc, seen, place, digest, size);
      hide Swap, UniqueLive, Taken;
      if place.Some? {
        var accepted := Repath(doc, place.value);
        if !accepted {
          r.tx.Rollback();
          return Refused;
        }
      }
      outcome := SwapVersion(doc, seen, digest, size);
      if outcome == Lost {
        r.tx.Rollback();
      }
    }

    method WriteTarget(target: Target, digest: string, size: int) returns (outcome: Outcome)
      requires UniqueLive(r.tx.db) && Sound(r.tx.db) && r.tx.db == r.tx.begun && Writable(r.tx.db, target)
      modifies r.tx`db
      ensures (r.tx.db, outcome) == Write(old(r.tx.db), target, digest, size)
    {
      hide UniqueLive, Swap;
      match target {
        case Found(doc, seen, place) =>
          outcome := WriteFound(doc, seen, place, digest, size);
        case Absent(mp, path, dev, ino) =>
          CreatedWins(r.tx.db, mp, path, dev, ino, digest, size);
          var doc, accepted := Create(mp, path, dev, ino);
          if !accepted {
            r.tx.Rollback();
            return Refused;
          }
          outcome := SwapVersion(doc, 0, digest, size);
      }
    }

    /** One attempt: the observation is read again, the document found and its version read; committed is what
        others have made of the tables by the time it writes. */
    method Promote(mp: int, path: Path, observed: Observation, digest: string, size: int, committed: Db) returns (verdict: Verdict)
      requires UniqueLive(committed) && Sound(committed) && Possible(r.tx.db, committed, mp, path, digest)
      modifies r.tx
      ensures (r.tx.db, verdict) == Attempt(old(r.tx.db), committed, mp, path, observed, digest, size)
    {
      hide UniqueLive, Sound, Look, Write;
      r.tx.Begin();
      var k := Key(mp, path);
      if k !in r.tx.db.obs || r.tx.db.obs[k].isDir || !SameFile(observed, r.tx.db.obs[k]) {
        return Finished;
      }
      var target := Find(mp, path, r.tx.db.obs[k], digest);
      r.tx.OthersCommit(committed);
      var outcome := WriteTarget(target, digest, size);
      return Judged(outcome);
    }

    /** The whole job. Attempt i finds found[i] when it reads and committed[i] when it writes. */
    method ProcessPath(mp: int, path: Path, file: Hashed, found: seq<Db>, committed: seq<Db>) returns (ok: bool, tried: nat)
      requires |found| == |committed| == Races.PROMOTE_ATTEMPTS
      requires forall i :: 0 <= i < |committed| ==>
                 UniqueLive(committed[i]) && Sound(committed[i])
                 && (file.Digest? ==> Possible(found[i], committed[i], mp, path, file.digest))
      modifies r.tx
      ensures var k := Key(mp, path);
              var was := old(r.tx.db);
              var wanted := k in was.obs && !was.obs[k].isDir && r.cfg.allow(path);
              && (!wanted || !file.Digest? ==> tried == 0 && r.tx.db == was && (ok <==> !wanted || !file.Unreadable?))
              && (wanted && file.Digest? ==>
                    && 0 < tried <= 3
                    && (forall i :: 0 <= i < tried - 1 ==>
                          Attempt(found[i], committed[i], mp, path, was.obs[k], file.digest, file.size).1 == Raced)
                    && var (after, verdict) := Attempt(found[tried - 1], committed[tried - 1], mp, path, was.obs[k], file.digest, file.size);
                       && r.tx.db == after && (ok <==> verdict == Finished)
                       && (verdict == Raced ==> tried == 3))
    {
      hide Attempt, UniqueLive, Sound, Possible;
      var k := Key(mp, path);
      if k !in r.tx.db.obs || r.tx.db.obs[k].isDir || !r.cfg.allow(path) {
        return true, 0;
      }
      var observed := r.tx.db.obs[k];
      if !file.Digest? {
        return !file.Unreadable?, 0;
      }
      tried := 0;
      while tried < Races.PROMOTE_ATTEMPTS
        invariant 0 <= tried <= Races.PROMOTE_ATTEMPTS
        invariant forall i :: 0 <= i < tried ==>
                    Attempt(found[i], committed[i], mp, path, observed, file.digest, file.size).1 == Raced
        invariant tried > 0 ==> r.tx.db == Attempt(found[tried - 1], committed[tried - 1], mp, path, observed, file.digest, file.size).0
      {
        r.tx.Begin();
        r.tx.OthersCommit(found[tried]);
        var verdict := Promote(mp, path, observed, file.digest, file.size, committed[tried]);
        tried := tried + 1;
        if verdict != Raced {
          return verdict == Finished, tried;
        }
      }
      ok := false;
    }
  }

  lemma FreePathUnique(db: Db, mp: int, path: Path, dev: int, ino: int)
    requires UniqueLive(db) && FreshIds(db) && DocsAt(db, mp, path) == {}
    ensures UniqueLive(CreateDocument(db, mp, path, dev, ino))
  {
    forall j ensures !LiveAt(db, j, mp, path) {
      assert j !in DocsAt(db, mp, path);
    }
    CreateUnique(db, mp, path, dev, ino);
  }

  /** A swap is its re-pathing, if the index takes it, and then a swap where the row stands. */
  lemma PlacedSwap(db: Db, doc: nat, seen: nat, place: Option<Place>, digest: string, size: int)
    requires doc in db.docs
    ensures doc in Placed(db, doc, place).docs
    ensures var there := Swap(Placed(db, doc, place), doc, seen, None, digest, size);
            var swap := Swap(db, doc, seen, place, digest, size);
            if Taken(db, doc, place) then swap == (db, Refused)
            else if there.1 == Lost then
              swap == (db.(nextVersion := UpsertContentVersion(Placed(db, doc, place), digest, size).nextVersion), Lost)
            else swap == there
    ensures Placed(db, doc, place).nextVersion == db.nextVersion && Placed(db, doc, place).epoch == db.epoch
            && Placed(db, doc, place).nextDoc == db.nextDoc
  {
    hide Flip;
  }

  /** Nobody can have flipped a row that is not yet committed. */
  lemma CreatedWins(db: Db, mp: int, path: Path, dev: int, ino: int, digest: string, size: int)
    requires Sound(db)
    ensures var d := CreateDocument(db, mp, path, dev, ino);
            db.nextDoc in d.docs && Swap(d, db.nextDoc, 0, None, digest, size).1 == Won
  {
    CreatedSound(db, mp, path, dev, ino);
    WinsIff(CreateDocument(db, mp, path, dev, ino), db.nextDoc, 0, None, digest, size);
    hide Swap;
  }
}
