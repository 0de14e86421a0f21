/** At most one live document stands at each (mountpoint, path), whatever the steps, and no statement
    ever trips the unique indexes that enforce it. */
module LivePaths {
  import opened Common
  import opened Paths
  import opened Tables
  import opened Reconcile
  import opened Ledger

  lemma WithdrawUnique(db: Db, ids: set<nat>)
    requires UniqueLive(db)
    ensures UniqueLive(Withdraw(db, ids))
  {
    var after := Withdraw(db, ids);
    forall i, j, mp, path | LiveAt(after, i, mp, path) && LiveAt(after, j, mp, path) ensures i == j {
      assert LiveAt(db, i, mp, path) && LiveAt(db, j, mp, path);
    }
  }

  lemma SameDocsUnique(a: Db, b: Db)
    requires UniqueLive(a) && a.docs == b.docs
    ensures UniqueLive(b)
  {
    forall i, j, mp, path | LiveAt(b, i, mp, path) && LiveAt(b, j, mp, path) ensures i == j {
      assert LiveAt(a, i, mp, path) && LiveAt(a, j, mp, path);
    }
  }

  /** A document may take a path nobody else stands at. */
  lemma MoveUnique(db: Db, id: nat, path: Path, dev: int, ino: int)
    requires UniqueLive(db) && id in db.docs && db.docs[id].live
    requires forall j :: LiveAt(db, j, db.docs[id].mp, path) ==> j == id
    ensures UniqueLive(MoveDocument(db, id, path, dev, ino))
  {
    var after := MoveDocument(db, id, path, dev, ino);
    forall i, j, mp, p | LiveAt(after, i, mp, p) && LiveAt(after, j, mp, p) ensures i == j {
      assert i != id ==> LiveAt(db, i, mp, p);
      assert j != id ==> LiveAt(db, j, mp, p);
    }
  }

  /** A subtree may move where no live document is beneath, and then no row lands on another. */
  lemma SubtreeMoveUnique(db: Db, mp: int, oldPrefix: Path, newPrefix: Path)
    requires UniqueLive(db) && DocsUnder(db, mp, newPrefix) == {}
    ensures DocumentsFree(db, mp, oldPrefix, newPrefix)
    ensures UniqueLive(MoveDocumentSubtree(db, mp, oldPrefix, newPrefix))
  {
    assert forall j :: j in db.docs ==> !LiveUnder(db, j, mp, newPrefix) by {
      forall j | j in db.docs ensures !LiveUnder(db, j, mp, newPrefix) {
        assert j !in DocsUnder(db, mp, newPrefix);
      }
    }
    var after := MoveDocumentSubtree(db, mp, oldPrefix, newPrefix);
    forall i, j, m, p | LiveAt(after, i, m, p) && LiveAt(after, j, m, p) ensures i == j {
      var di, dj := db.docs[i], db.docs[j];
      if LiveUnder(db, i, mp, oldPrefix) && LiveUnder(db, j, mp, oldPrefix) {
        RebaseBack(di.path, oldPrefix, newPrefix);
        RebaseBack(dj.path, oldPrefix, newPrefix);
        assert LiveAt(db, i, mp, di.path) && LiveAt(db, j, mp, di.path);
      } else if LiveUnder(db, i, mp, oldPrefix) || LiveUnder(db, j, mp, oldPrefix) {
        assert false;
      } else {
        assert LiveAt(db, i, m, p) && LiveAt(db, j, m, p);
      }
    }
  }

  lemma ClearedDestination(db: Db, mp: int, newPath: Path)
    requires UniqueLive(db)
    ensures var d := ClearDestination(db, mp, newPath);
            UniqueLive(d) && DocsUnder(d, mp, SubtreePrefix(newPath)) == {}
    ensures forall k :: k in ClearDestination(db, mp, newPath).obs ==>
              !Under(k, mp, SubtreePrefix(newPath)) && k != Key(mp, newPath)
  {
    var d2 := DeleteObservationSubtree(DeleteObservation(db, Key(mp, newPath)), mp, SubtreePrefix(newPath));
    SameDocsUnique(db, d2);
    var ids := DocsUnder(d2, mp, SubtreePrefix(newPath));
    WithdrawUnique(d2, ids);
    var d := Withdraw(d2, ids);
    forall id | id in d.docs ensures !LiveUnder(d, id, mp, SubtreePrefix(newPath)) {
      assert LiveUnder(d, id, mp, SubtreePrefix(newPath)) ==> id in ids;
    }
  }

  /** Once nothing is observed beneath a prefix, a subtree can move there without landing on a row. */
  lemma ClearedObservationsFree(db: Db, mp: int, oldPrefix: Path, newPrefix: Path)
    requires forall k :: k in db.obs ==> !Under(k, mp, newPrefix)
    ensures ObservationsFree(db, mp, oldPrefix, newPrefix)
  {
    forall k | k in MovedKeys(db, mp, oldPrefix, newPrefix) ensures k !in db.obs {
      assert Under(k, mp, newPrefix);
    }
  }

  lemma MoveDirectoryUnique(db: Db, mp: int, oldPath: Path, newPath: Path, stat: Option<Stat>)
    requires UniqueLive(db)
    ensures UniqueLive(MoveDirectory(db, mp, oldPath, newPath, stat))
  {
    hide ClearDestination, MoveObservationSubtree, MoveDocumentSubtree, UniqueLive;
    var oldPrefix, newPrefix := SubtreePrefix(oldPath), SubtreePrefix(newPath);
    var d1 := ClearDestination(db, mp, newPath);
    ClearedDestination(db, mp, newPath);
    var d2 := MoveObservationSubtree(d1, mp, oldPrefix, newPrefix);
    var d3 := DeleteObservation(d2, Key(mp, oldPath));
    var d4 := UpsertObservation(d3, Key(mp, newPath), ObservationOf(stat, true, 0));
    MoveObservationKeepsDocs(d1, mp, oldPrefix, newPrefix);
    SameDocsUnique(d1, d4);
    SubtreeMoveUnique(d4, mp, oldPrefix, newPrefix);
  }

  lemma MoveObservationKeepsDocs(db: Db, mp: int, oldPrefix: Path, newPrefix: Path)
    ensures MoveObservationSubtree(db, mp, oldPrefix, newPrefix) == db.(obs := MoveObservationSubtree(db, mp, oldPrefix, newPrefix).obs)
  {
  }

  lemma MoveFileUnique(cfg: Config, db: Db, mp: int, oldPath: Path, newPath: Path, stat: Option<Stat>)
    requires UniqueLive(db)
    ensures UniqueLive(MoveFile(cfg, db, mp, oldPath, newPath, stat))
  {
    hide UniqueLive, Owed;
    var d1 := DeleteObservation(db, Key(mp, oldPath));
    var d2 := UpsertObservation(d1, Key(mp, newPath), ObservationOf(stat, false, 0));
    SameDocsUnique(db, d2);
    match FindByPath(d2, mp, oldPath)
    case None => SameDocsUnique(d2, MoveFile(cfg, db, mp, oldPath, newPath, stat));
    case Some(moved) =>
      var ids := DocsAt(d2, mp, newPath) - {moved};
      var d3 := Withdraw(d2, ids);
      WithdrawUnique(d2, ids);
      WithdrawUnique(d3, {moved});
      forall j | LiveAt(d3, j, mp, newPath) ensures j == moved {
        assert LiveAt(d2, j, mp, newPath);
        assert j !in ids;
      }
      var d4 := MoveDocument(d3, moved, newPath, StatDev(stat), StatIno(stat));
      MoveUnique(d3, moved, newPath, StatDev(stat), StatIno(stat));
      SameDocsUnique(d4, EnqueueIngest(d4, IngestJob(mp, newPath, Settled)));
  }

  lemma DeleteUnique(cfg: Config, db: Db, path: Path, isDir: bool)
    requires UniqueLive(db)
    ensures UniqueLive(ApplyDelete(cfg, db, path, isDir))
  {
    hide UniqueLive, Withdraw;
    match Resolve(cfg, path)
    case None =>
    case Some(mp) =>
      var d1 := DeleteObservation(db, Key(mp, path));
      var d2 := if isDir then DeleteObservationSubtree(d1, mp, SubtreePrefix(path)) else d1;
      SameDocsUnique(db, d2);
      WithdrawUnique(d2, if isDir then DocsUnder(d2, mp, SubtreePrefix(path)) else DocsAt(d2, mp, path));
  }

  lemma ObserveUnique(cfg: Config, db: Db, path: Path, stat: Option<Stat>, isDir: bool, trigger: Trigger)
    requires UniqueLive(db)
    ensures UniqueLive(Observe(cfg, db, path, stat, isDir, trigger)) && UniqueLive(ObserveOnly(cfg, db, path, stat, isDir))
  {
    SameDocsUnique(db, Observe(cfg, db, path, stat, isDir, trigger));
    SameDocsUnique(db, ObserveOnly(cfg, db, path, stat, isDir));
  }

  lemma KindUnique(cfg: Config, db: Db, ev: Event)
    requires UniqueLive(db)
    ensures UniqueLive(ApplyKind(cfg, db, ev))
  {
    hide UniqueLive, MoveDirectory, MoveFile, ApplyDelete, Observe, ObserveOnly;
    match ev.kind
    case Delete => DeleteUnique(cfg, db, ev.path, ev.isDir);
    case Move =>
      var from, to := Resolve(cfg, ev.oldPath), Resolve(cfg, ev.path);
      if from.Some? && from == to {
        MoveDirectoryUnique(db, to.value, ev.oldPath, ev.path, ev.stat);
        MoveFileUnique(cfg, db, to.value, ev.oldPath, ev.path, ev.stat);
      } else {
        DeleteUnique(cfg, db, ev.oldPath, ev.isDir);
        ObserveUnique(cfg, ApplyDelete(cfg, db, ev.oldPath, ev.isDir), ev.path, ev.stat, ev.isDir, Settled);
      }
    case CloseWrite => ObserveUnique(cfg, db, ev.path, ev.stat, ev.isDir, Settled);
    case Unknown =>
    case _ => ObserveUnique(cfg, db, ev.path, ev.stat, ev.isDir, Debounced);
  }

  lemma EventUnique(cfg: Config, db: Db, ev: Event)
    requires UniqueLive(db)
    ensures UniqueLive(ApplyEvent(cfg, db, ev))
  {
    hide UniqueLive, ApplyKind;
    KindUnique(cfg, db, ev);
    SameDocsUnique(ApplyKind(cfg, db, ev), SetWatermark(ApplyKind(cfg, db, ev), ToInt64(ev.num)));
  }

  lemma ScanUnique(cfg: Config, db: Db, m: Mountpoint, stream: seq<Scanned>)
    requires UniqueLive(db)
    ensures UniqueLive(ReconcileRoot(cfg, db, m, stream))
  {
    hide UniqueLive, Withdraw;
    var begun := NextScanEpoch(db);
    ObserveAllTouchesNoDocument(cfg, begun, stream, begun.epoch);
    var seen := ObserveAll(cfg, begun, stream, begun.epoch);
    var swept := SweepScanEpoch(seen, m.id, m.root, begun.epoch);
    SameDocsUnique(db, swept);
    WithdrawUnique(swept, DocsAtAny(swept, m.id, Gone(seen, m.id, m.root, begun.epoch)));
  }

  lemma ResolveUnique(db: Db, mp: int, path: Path, o: Observation, digest: string)
    requires UniqueLive(db) && FreshIds(db)
    ensures var (d, doc) := ResolveDocument(db, mp, path, o, digest);
            UniqueLive(d) && LiveAt(d, doc, mp, path)
  {
    var (d, doc) := ResolveDocument(db, mp, path, o, digest);
    if FindByPath(db, mp, path).Some? {
      hide UniqueLive;
      assert LiveAt(db, doc, mp, path);
      UniqueAt(db, doc, mp, path);
      MoveUnique(db, doc, path, o.dev, o.ino);
    } else {
      hide UniqueLive;
      forall j ensures !LiveAt(db, j, mp, path) {
        assert j !in DocsAt(db, mp, path);
      }
      if doc in db.docs {
        MoveUnique(db, doc, path, o.dev, o.ino);
      } else {
        CreateUnique(db, mp, path, o.dev, o.ino);
      }
    }
  }

  lemma UniqueAt(db: Db, id: nat, mp: int, path: Path)
    requires UniqueLive(db) && LiveAt(db, id, mp, path)
    ensures forall j :: LiveAt(db, j, mp, path) ==> j == id
    ensures DocsAt(db, mp, path) == {id}
  {
  }

  lemma CreateUnique(db: Db, mp: int, path: Path, dev: int, ino: int)
    requires UniqueLive(db) && FreshIds(db) && forall j :: !LiveAt(db, j, mp, path)
    ensures UniqueLive(CreateDocument(db, mp, path, dev, ino))
  {
    var after := CreateDocument(db, mp, path, dev, ino);
    forall i, j, m, p | LiveAt(after, i, m, p) && LiveAt(after, j, m, p) ensures i == j {
      assert i != db.nextDoc ==> LiveAt(db, i, m, p);
      assert j != db.nextDoc ==> LiveAt(db, j, m, p);
    }
  }

  lemma SamePlacesUnique(a: Db, b: Db)
    requires UniqueLive(a)
    requires b.docs.Keys <= a.docs.Keys
    requires forall id :: id in b.docs ==> a.docs[id].live == b.docs[id].live
    requires forall id :: id in b.docs ==> a.docs[id].mp == b.docs[id].mp && a.docs[id].path == b.docs[id].path
    ensures UniqueLive(b)
  {
    forall i, j, m, p | LiveAt(b, i, m, p) && LiveAt(b, j, m, p) ensures i == j {
      assert LiveAt(a, i, m, p) && LiveAt(a, j, m, p);
    }
  }

  lemma FlipUnique(db: Db, doc: nat, superseded: nat, version: nat)
    requires UniqueLive(db)
    ensures UniqueLive(Flip(db, doc, superseded, version))
  {
    if doc in db.docs {
      FlipShape(db, doc, superseded, version);
      hide Flip, UniqueLive;
      SamePlacesUnique(db, Flip(db, doc, superseded, version));
    } else {
      hide UniqueLive;
      SameDocsUnique(db, Flip(db, doc, superseded, version));
    }
  }

  lemma PromoteUnique(db: Db, mp: int, path: Path, observed: Observation, digest: string, size: int)
    requires UniqueLive(db) && FreshIds(db)
    ensures UniqueLive(Promote(db, mp, path, observed, digest, size))
  {
    var k := Key(mp, path);
    if k in db.obs && !db.obs[k].isDir && SameFile(observed, db.obs[k]) {
      hide ResolveDocument, UniqueLive, Flip;
      var (d1, doc) := ResolveDocument(db, mp, path, db.obs[k], digest);
      ResolveUnique(db, mp, path, db.obs[k], digest);
      var d2 := UpsertContentVersion(d1, digest, size);
      SameDocsUnique(d1, d2);
      if doc in d2.docs {
        FlipUnique(d2, doc, d2.docs[doc].version, d2.versions[digest].id);
      }
    }
  }

  lemma StepUnique(cfg: Config, db: Db, step: Step)
    requires Sound(db) && UniqueLive(db)
    ensures UniqueLive(After(cfg, db, step))
  {
    hide ApplyEvent, ReconcileRoot, Promote, UniqueLive;
    match step
    case Applied(ev) => EventUnique(cfg, db, ev);
    case Rescanned(m, stream) => ScanUnique(cfg, db, m, stream);
    case Abandoned => SameDocsUnique(db, After(cfg, db, step));
    case Marked(at) => SameDocsUnique(db, After(cfg, db, step));
    case Promoted(mp, path, observed, digest, size) => PromoteUnique(db, mp, path, observed, digest, size);
  }

  /** Over every run from an empty database, two live documents never share a mountpoint and path. */
  lemma {:induction false} RunUnique(cfg: Config, steps: seq<Step>)
    ensures UniqueLive(Run(cfg, EMPTY_DB, steps))
    decreases |steps|
  {
    hide After;
    if steps != [] {
      var init := steps[..|steps| - 1];
      RunUnique(cfg, init);
      RunConserves(cfg, EMPTY_DB, init);
      StepUnique(cfg, Run(cfg, EMPTY_DB, init), steps[|steps| - 1]);
    }
  }
}
