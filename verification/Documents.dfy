/** What every event, scan and promotion makes of each document, read off the tables. */
module Documents {
  import opened Common
  import opened Paths
  import opened Tables
  import opened Reconcile
  import opened Ledger
  import opened ObservedPaths
  import opened Identity
  import opened Scans

  /** The document lies beneath the directory. */
  predicate StandsBeneath(db: Db, mp: int, dir: Path, id: nat) {
    id in db.docs && db.docs[id].live && db.docs[id].mp == mp && Beneath(db.docs[id].path, dir)
  }

  /** It was deleted with the path. */
  predicate Deleted(cfg: Config, db: Db, path: Path, isDir: bool, id: nat) {
    var mp := Resolve(cfg, path);
    mp.Some? && if isDir then StandsBeneath(db, mp.value, path, id) else StandsAt(db, mp.value, path, id)
  }

  lemma DeleteOfDocument(cfg: Config, db: Db, path: Path, isDir: bool, id: nat)
    requires id in db.docs
    ensures var after := ApplyDelete(cfg, db, path, isDir);
            && after.docs.Keys == db.docs.Keys
            && after.docs[id] == if Deleted(cfg, db, path, isDir, id) then db.docs[id].(live := false) else db.docs[id]
  {
    hide Resolve, Owed;
  }

  /** What a file rename within a root makes of each document: the one renamed keeps its id, version and liveness
      and takes the file's new path and inode, or is withdrawn where the new name is not indexed; the one it
      lands on is withdrawn; every other, and a destination nothing is renamed onto, stays. */
  lemma RenameOfFile(cfg: Config, db: Db, mp: int, oldPath: Path, newPath: Path, stat: Option<Stat>, id: nat)
    requires UniqueLive(db) && id in db.docs
    ensures var after := MoveFile(cfg, db, mp, oldPath, newPath, stat);
            && after.docs.Keys == db.docs.Keys
            && after.docs[id]
               == if StandsAt(db, mp, oldPath, id) then
                    if cfg.allow(newPath) then
                      db.docs[id].(path := newPath, dev := if stat.Some? then ToInt64(stat.value.dev) else 0,
                                   ino := if stat.Some? then ToInt64(stat.value.ino) else 0)
                    else db.docs[id].(live := false)
                  else if StandsAt(db, mp, newPath, id) && exists m :: StandsAt(db, mp, oldPath, m) then
                    db.docs[id].(live := false)
                  else db.docs[id]
  {
    var d2 := UpsertObservation(DeleteObservation(db, Key(mp, oldPath)), Key(mp, newPath), ObservationOf(stat, false, 0));
    FindsByPath(d2, mp, oldPath);
    SameStands(db, d2);
    OneStands(db, mp, oldPath);
    hide UniqueLive, ObservationOf, DocsAt, StandsAt, ToInt64, Withdraw, FindByPath;
    match FindByPath(d2, mp, oldPath) {
      case None =>
        assert !exists m :: StandsAt(db, mp, oldPath, m);
      case Some(moved) =>
        StandsIs(db, mp, oldPath, moved);
        StandsIs(db, mp, newPath, id);
        DocsAtStands(d2, mp, newPath, id);
        WithdrawShape(d2, DocsAt(d2, mp, newPath) - {moved});
        WithdrawShape(Withdraw(d2, DocsAt(d2, mp, newPath) - {moved}), {moved});
    }
  }

  lemma SameStands(a: Db, b: Db)
    requires a.docs == b.docs
    ensures forall mp, path, id :: StandsAt(a, mp, path, id) == StandsAt(b, mp, path, id)
  {
  }

  lemma StandsIs(db: Db, mp: int, path: Path, id: nat)
    ensures StandsAt(db, mp, path, id) ==> id in db.docs && db.docs[id].live
  {
  }

  lemma DocsAtStands(db: Db, mp: int, path: Path, id: nat)
    ensures id in DocsAt(db, mp, path) <==> StandsAt(db, mp, path, id)
  {
  }

  lemma OneStands(db: Db, mp: int, path: Path)
    requires UniqueLive(db)
    ensures forall i, j :: StandsAt(db, mp, path, i) && StandsAt(db, mp, path, j) ==> i == j
  {
    forall i, j | StandsAt(db, mp, path, i) && StandsAt(db, mp, path, j) ensures i == j {
      assert LiveAt(db, i, mp, path) && LiveAt(db, j, mp, path);
    }
  }

  /** No event but a deletion or a move changes a document; one between two roots is the deletion of its source. */
  lemma EventOfDocument(cfg: Config, db: Db, ev: Event, id: nat)
    requires id in db.docs
    ensures var after := ApplyKind(cfg, db, ev);
            var from, to := Resolve(cfg, ev.oldPath), Resolve(cfg, ev.path);
            && (ev.kind.Delete? ==> after.docs == ApplyDelete(cfg, db, ev.path, ev.isDir).docs)
            && (ev.kind.Move? && (from.None? || from != to) ==> after.docs == ApplyDelete(cfg, db, ev.oldPath, ev.isDir).docs)
            && (!ev.kind.Delete? && !ev.kind.Move? ==> after.docs == db.docs)
  {
    hide Resolve, ApplyDelete, MoveFile, MoveDirectory;
  }

  /** A scan withdraws exactly the live documents under its root whose row it swept: one that was there and that
      the walk did not list. */
  lemma ScanOfDocument(cfg: Config, db: Db, m: Mountpoint, stream: seq<Scanned>, id: nat)
    requires EpochsDrawn(db) && id in db.docs
    ensures var after := ReconcileRoot(cfg, db, m, stream);
            var d := db.docs[id];
            var swept := d.mp == m.id && Contains(m.root, d.path) && Key(d.mp, d.path) in db.obs
                         && !exists i :: 0 <= i < |stream| && stream[i].path == d.path && Resolve(cfg, d.path) == Some(d.mp);
            && after.docs.Keys == db.docs.Keys
            && after.docs[id] == if d.live && swept then d.(live := false) else d
  {
    var begun := NextScanEpoch(db);
    var seen := ObserveAll(cfg, begun, stream, begun.epoch);
    var k := Key(db.docs[id].mp, db.docs[id].path);
    ObserveAllTouchesNoDocument(cfg, begun, stream, begun.epoch);
    ObservedSoFar(cfg, begun, stream, begun.epoch, k);
    SweepOfDocument(seen, m, begun.epoch, id);
    hide ObserveAll, Owed, Resolve, Contains, SweepRoot;
  }

  lemma SweepOfDocument(db: Db, m: Mountpoint, epoch: int, id: nat)
    requires id in db.docs
    ensures var after := SweepRoot(db, m.id, m.root, epoch);
            var d := db.docs[id];
            var k := Key(d.mp, d.path);
            && after.docs.Keys == db.docs.Keys
            && after.docs[id]
               == if d.live && d.mp == m.id && k in db.obs && Contains(m.root, d.path) && db.obs[k].seenEpoch != epoch then d.(live := false) else d
  {
    hide Owed, Contains;
    var d := db.docs[id];
    assert d.path in Gone(db, m.id, m.root, epoch)
      <==> Key(m.id, d.path) in db.obs && Unseen(Key(m.id, d.path), db.obs[Key(m.id, d.path)], m.id, m.root, epoch) by {
      if k :| k in db.obs && Unseen(k, db.obs[k], m.id, m.root, epoch) && k.path == d.path {
        assert k == Key(m.id, d.path);
      }
    }
  }

  // ---- promotions ----

  /** A promotion that goes ahead leaves its document live at the path with the file's inode and the version of
      the file's content, and every other document as it was; the content is on record with its size, and a
      version newly taken up is claimed for extraction. */
  lemma PromoteOfDocument(db: Db, mp: int, path: Path, observed: Observation, digest: string, size: int, id: nat)
    requires UniqueLive(db) && Sound(db)
    requires Key(mp, path) in db.obs && !db.obs[Key(mp, path)].isDir && SameFile(observed, db.obs[Key(mp, path)])
    ensures var o := db.obs[Key(mp, path)];
            var after := Promote(db, mp, path, observed, digest, size);
            var doc := ResolveDocument(db, mp, path, o, digest).1;
            && digest in after.versions && after.versions[digest].size == size
            && (digest in db.versions ==> after.versions[digest].id == db.versions[digest].id)
            && (digest !in db.versions ==> after.versions[digest].id == db.nextVersion && after.nextVersion == db.nextVersion + 1)
            && doc in after.docs && after.docs[doc] == Document(mp, path, o.dev, o.ino, after.versions[digest].id, true)
            && (id in db.docs && id != doc ==> id in after.docs && after.docs[id] == db.docs[id])
            && (doc in db.docs ==> after.nextDoc == db.nextDoc) && (doc !in db.docs ==> doc == db.nextDoc && after.nextDoc == doc + 1)
            && (if doc in db.docs && db.docs[doc].version == after.versions[digest].id
                then after.extractions == db.extractions && after.extract == db.extract
                else after.extractions == db.extractions + {after.versions[digest].id}
                     && after.extract == db.extract + multiset{after.versions[digest].id})
  {
    var o := db.obs[Key(mp, path)];
    var (d1, doc) := ResolveDocument(db, mp, path, o, digest);
    ResolvedDocument(db, mp, path, o, digest, doc);
    ResolvedDocument(db, mp, path, o, digest, id);
    ResolveKeepsHeld(db, mp, path, o, digest);
    ResolveKeepsCounts(db, mp, path, o, digest);
    hide ResolveDocument, UniqueLive, SameFile, Held, FreshIds, VersionsDrawn;
  }

  lemma ResolveKeepsCounts(db: Db, mp: int, path: Path, o: Observation, digest: string)
    requires FreshIds(db)
    ensures var (d, doc) := ResolveDocument(db, mp, path, o, digest);
            && d.nextVersion == db.nextVersion && d.versions == db.versions
            && (doc in db.docs ==> d.nextDoc == db.nextDoc) && (doc !in db.docs ==> doc == db.nextDoc && d.nextDoc == doc + 1)
  {
  }
}
