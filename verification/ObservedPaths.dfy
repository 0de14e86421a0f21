/** When does every live document's path stay observed?  Exactly as long as no directory event names a
    live document's own path. */
module ObservedPaths {
  import opened Common
  import opened Paths
  import opened Tables
  import opened Reconcile
  import opened Ledger
  import opened LivePaths

  ghost predicate Observed(db: Db) {
    forall id :: id in db.docs && db.docs[id].live ==> Key(db.docs[id].mp, db.docs[id].path) in db.obs
  }

  predicate Stands(db: Db, mp: int, path: Path) {
    DocsAt(db, mp, path) != {}
  }

  /** A directory delete drops its path's row and only the documents strictly beneath it.
      (Only a path that ends in a slash is beneath itself.) */
  predicate DeleteStrands(cfg: Config, db: Db, path: Path, isDir: bool) {
    match Resolve(cfg, path)
    case None => false
    case Some(mp) => isDir && Stands(db, mp, path) && !Beneath(path, path)
  }

  /** A directory rename drops the rows of both its paths and re-adds the destination's. */
  predicate RenameStrands(db: Db, mp: int, oldPath: Path, newPath: Path) {
    || (Stands(db, mp, oldPath) && oldPath != newPath && !Beneath(oldPath, oldPath) && !Beneath(oldPath, newPath))
    || (Stands(db, mp, newPath) && Beneath(newPath, oldPath) && !Beneath(newPath, newPath))
  }

  predicate Strands(cfg: Config, db: Db, ev: Event) {
    var from, to := Resolve(cfg, ev.oldPath), Resolve(cfg, ev.path);
    && ToInt64(ev.num) > db.watermark
    && match ev.kind
       case Delete => DeleteStrands(cfg, db, ev.path, ev.isDir)
       case Move =>
         if from.Some? && from == to then ev.isDir && RenameStrands(db, to.value, ev.oldPath, ev.path)
         else DeleteStrands(cfg, db, ev.oldPath, ev.isDir)
       case _ => false
  }

  lemma MovedKey(db: Db, mp: int, oldPrefix: Path, newPrefix: Path, k: Key)
    ensures k in MoveObservationSubtree(db, mp, oldPrefix, newPrefix).obs
       <==> (k in db.obs && !Under(k, mp, oldPrefix))
            || (Under(k, mp, newPrefix) && Source(k, oldPrefix, newPrefix) in db.obs)
  {
    if Under(k, mp, newPrefix) {
      var s := Source(k, oldPrefix, newPrefix);
      RebaseBack(k.path, newPrefix, oldPrefix);
      assert s in db.obs ==> k in MovedKeys(db, mp, oldPrefix, newPrefix);
    }
  }

  lemma ObserveKeeps(cfg: Config, db: Db, path: Path, stat: Option<Stat>, isDir: bool, trigger: Trigger)
    ensures Observed(db) ==> Observed(Observe(cfg, db, path, stat, isDir, trigger)) && Observed(ObserveOnly(cfg, db, path, stat, isDir))
  {
  }

  lemma DeleteIff(cfg: Config, db: Db, path: Path, isDir: bool)
    requires Observed(db) && UniqueLive(db)
    ensures Observed(ApplyDelete(cfg, db, path, isDir)) <==> !DeleteStrands(cfg, db, path, isDir)
  {
    var after := ApplyDelete(cfg, db, path, isDir);
    match Resolve(cfg, path)
    case None =>
    case Some(mp) =>
      forall id | id in after.docs && after.docs[id].live && Key(after.docs[id].mp, after.docs[id].path) !in after.obs
        ensures LiveAt(db, id, mp, path) && isDir && !Beneath(path, path)
      {
        assert db.docs[id] == after.docs[id];
      }
      if DeleteStrands(cfg, db, path, isDir) {
        var id :| id in DocsAt(db, mp, path);
        assert after.docs[id] == db.docs[id] && Key(mp, path) !in after.obs;
      } else if isDir && Beneath(path, path) {
      } else if isDir {
        assert forall id :: LiveAt(db, id, mp, path) ==> id in DocsAt(db, mp, path);
      }
  }

  /** A live document after a directory rename, traced back to where it stood. */
  lemma RenameTrace(db: Db, mp: int, oldPath: Path, newPath: Path, stat: Option<Stat>, id: nat)
    requires id in db.docs && db.docs[id].live && Key(db.docs[id].mp, db.docs[id].path) in db.obs
    ensures var o, n := SubtreePrefix(oldPath), SubtreePrefix(newPath);
            var d := db.docs[id];
            var after := MoveDirectory(db, mp, oldPath, newPath, stat);
            && id in after.docs
            && (after.docs[id].live <==> !Under(Key(d.mp, d.path), mp, n))
            && (after.docs[id].live ==>
                  (Key(after.docs[id].mp, after.docs[id].path) !in after.obs
                   <==> d.mp == mp && if o <= d.path then d.path == newPath else d.path == oldPath && oldPath != newPath))
  {
    var o, n := SubtreePrefix(oldPath), SubtreePrefix(newPath);
    var d := db.docs[id];
    var d1 := ClearDestination(db, mp, newPath);
    var after := MoveDirectory(db, mp, oldPath, newPath, stat);
    assert LiveUnder(db, id, mp, n) <==> Under(Key(d.mp, d.path), mp, n);
    if !Under(Key(d.mp, d.path), mp, n) {
      var k := Key(after.docs[id].mp, after.docs[id].path);
      ClearedRow(db, mp, newPath, Key(d.mp, d.path));
      ClearedRow(db, mp, newPath, k);
      MovedKey(d1, mp, o, n, k);
      if d.mp == mp && o <= d.path {
        RebaseBack(d.path, o, n);
        assert Source(k, o, n) == Key(mp, d.path);
        NotBack(oldPath, newPath, d.path);
      }
    }
  }

  lemma ClearedRow(db: Db, mp: int, newPath: Path, k: Key)
    ensures k in ClearDestination(db, mp, newPath).obs <==> k in db.obs && k != Key(mp, newPath) && !Under(k, mp, SubtreePrefix(newPath))
  {
  }

  /** What was beneath the source and not beneath the destination never lands on the source path. */
  lemma NotBack(oldPath: Path, newPath: Path, p: Path)
    requires Beneath(p, oldPath) && !Beneath(p, newPath)
    ensures Rebase(p, SubtreePrefix(oldPath), SubtreePrefix(newPath)) != oldPath
  {
    var o, n := SubtreePrefix(oldPath), SubtreePrefix(newPath);
    assert Rebase(p, o, n) == oldPath ==> n <= oldPath <= o;
  }

  lemma RenameIff(db: Db, mp: int, oldPath: Path, newPath: Path, stat: Option<Stat>)
    requires Observed(db) && UniqueLive(db)
    ensures Observed(MoveDirectory(db, mp, oldPath, newPath, stat)) <==> !RenameStrands(db, mp, oldPath, newPath)
  {
    var after := MoveDirectory(db, mp, oldPath, newPath, stat);
    RenameIds(db, mp, oldPath, newPath, stat);
    hide MoveDirectory;
    if RenameStrands(db, mp, oldPath, newPath) {
      var at := if Stands(db, mp, oldPath) && oldPath != newPath && !Beneath(oldPath, oldPath) && !Beneath(oldPath, newPath)
                then oldPath else newPath;
      var id :| id in DocsAt(db, mp, at);
      RenameTrace(db, mp, oldPath, newPath, stat, id);
    } else {
      forall id | id in after.docs && after.docs[id].live
        ensures Key(after.docs[id].mp, after.docs[id].path) in after.obs
      {
        RenameTrace(db, mp, oldPath, newPath, stat, id);
        var d := db.docs[id];
        assert id in DocsAt(db, d.mp, d.path);
      }
    }
  }

  lemma RenameIds(db: Db, mp: int, oldPath: Path, newPath: Path, stat: Option<Stat>)
    ensures var after := MoveDirectory(db, mp, oldPath, newPath, stat);
            after.docs.Keys == db.docs.Keys && forall id :: id in after.docs && after.docs[id].live ==> db.docs[id].live
  {
  }

  /** Where a file rename leaves the rows. */
  lemma MoveFileRows(cfg: Config, db: Db, mp: int, oldPath: Path, newPath: Path, stat: Option<Stat>)
    ensures MoveFile(cfg, db, mp, oldPath, newPath, stat).obs
         == (db.obs - {Key(mp, oldPath)})[Key(mp, newPath) := ObservationOf(stat, false, 0)]
  {
    hide Owed, DocsAt;
  }

  /** And one document. */
  lemma MoveFileShape(cfg: Config, db: Db, mp: int, oldPath: Path, newPath: Path, stat: Option<Stat>, id: nat)
    requires id in db.docs
    ensures var after := MoveFile(cfg, db, mp, oldPath, newPath, stat);
            && id in after.docs
            && (after.docs[id].live ==>
                  && db.docs[id].live
                  && if FindByPath(db, mp, oldPath) == Some(id) then after.docs[id].mp == mp && after.docs[id].path == newPath
                     else after.docs[id] == db.docs[id])
  {
    hide Withdraw, DocsAt, FindByPath;
    var d2 := UpsertObservation(DeleteObservation(db, Key(mp, oldPath)), Key(mp, newPath), ObservationOf(stat, false, 0));
    SameDocsFind(db, d2, mp, oldPath);
    match FindByPath(d2, mp, oldPath)
    case None =>
    case Some(moved) =>
      MovedDocExists(d2, mp, oldPath, moved);
      var ids := DocsAt(d2, mp, newPath) - {moved};
      var d3 := Withdraw(d2, ids);
      WithdrawShape(d2, ids);
      if !cfg.allow(newPath) {
        WithdrawShape(d3, {moved});
      }
  }

  lemma SameDocsFind(a: Db, b: Db, mp: int, path: Path)
    requires a.docs == b.docs
    ensures FindByPath(a, mp, path) == FindByPath(b, mp, path)
  {
    assert DocsAt(a, mp, path) == DocsAt(b, mp, path);
  }

  lemma MovedDocExists(db: Db, mp: int, path: Path, id: nat)
    requires FindByPath(db, mp, path) == Some(id)
    ensures LiveAt(db, id, mp, path)
  {
  }

  lemma WithdrawShape(db: Db, ids: set<nat>)
    ensures var d := Withdraw(db, ids);
            && d.obs == db.obs && d.docs.Keys == db.docs.Keys
            && forall id :: id in db.docs ==> d.docs[id] == if id in ids then db.docs[id].(live := false) else db.docs[id]
  {
  }

  lemma FileMoveKeeps(cfg: Config, db: Db, mp: int, oldPath: Path, newPath: Path, stat: Option<Stat>)
    requires Observed(db) && UniqueLive(db)
    ensures Observed(MoveFile(cfg, db, mp, oldPath, newPath, stat))
  {
    var after := MoveFile(cfg, db, mp, oldPath, newPath, stat);
    MoveFileIds(cfg, db, mp, oldPath, newPath, stat);
    hide MoveFile;
    forall id | id in after.docs && after.docs[id].live
      ensures Key(after.docs[id].mp, after.docs[id].path) in after.obs
    {
      MoveFileRows(cfg, db, mp, oldPath, newPath, stat);
      MoveFileShape(cfg, db, mp, oldPath, newPath, stat, id);
      var moved := FindByPath(db, mp, oldPath);
      assert LiveAt(db, id, mp, oldPath) ==> id in DocsAt(db, mp, oldPath);
      assert moved.Some? ==> LiveAt(db, moved.value, mp, oldPath);
    }
  }

  lemma MoveFileIds(cfg: Config, db: Db, mp: int, oldPath: Path, newPath: Path, stat: Option<Stat>)
    ensures MoveFile(cfg, db, mp, oldPath, newPath, stat).docs.Keys == db.docs.Keys
  {
    hide Owed;
  }

  /** The exact condition: an event keeps every live document's path observed if and only if it does not
      strand one. */
  lemma EventKeepsObservedIff(cfg: Config, db: Db, ev: Event)
    requires Observed(db) && UniqueLive(db)
    ensures Observed(ApplyEvent(cfg, db, ev)) <==> !Strands(cfg, db, ev)
  {
    hide UniqueLive, ApplyDelete, MoveFile, MoveDirectory, Observe, ObserveOnly, DeleteStrands, RenameStrands;
    if ToInt64(ev.num) <= db.watermark {
      return;
    }
    var from, to := Resolve(cfg, ev.oldPath), Resolve(cfg, ev.path);
    var applied := ApplyKind(cfg, db, ev);
    var gone := ApplyDelete(cfg, db, ev.oldPath, ev.isDir);
    match ev.kind {
      case Delete => DeleteIff(cfg, db, ev.path, ev.isDir);
      case Move =>
        if from.Some? && from == to {
          RenameIff(db, to.value, ev.oldPath, ev.path, ev.stat);
          FileMoveKeeps(cfg, db, to.value, ev.oldPath, ev.path, ev.stat);
        } else {
          DeleteIff(cfg, db, ev.oldPath, ev.isDir);
          CrossingIff(cfg, db, ev);
        }
      case CloseWrite => ObserveKeeps(cfg, db, ev.path, ev.stat, ev.isDir, Settled);
      case _ => ObserveKeeps(cfg, db, ev.path, ev.stat, ev.isDir, Debounced);
    }
    assert Observed(applied) <==> Observed(SetWatermark(applied, ToInt64(ev.num)));
  }

  /** A move between two roots re-adds a row under another root, which covers nothing the deletion stranded. */
  lemma CrossingIff(cfg: Config, db: Db, ev: Event)
    requires Resolve(cfg, ev.oldPath) != Resolve(cfg, ev.path) || Resolve(cfg, ev.oldPath).None?
    ensures var gone := ApplyDelete(cfg, db, ev.oldPath, ev.isDir);
            Observed(db) && UniqueLive(db) ==>
              (Observed(Observe(cfg, gone, ev.path, ev.stat, ev.isDir, Settled)) <==> Observed(gone))
  {
    var gone := ApplyDelete(cfg, db, ev.oldPath, ev.isDir);
    var after := Observe(cfg, gone, ev.path, ev.stat, ev.isDir, Settled);
    ObserveKeeps(cfg, gone, ev.path, ev.stat, ev.isDir, Settled);
    if Observed(db) && UniqueLive(db) && !Observed(gone) {
      var id :| id in gone.docs && gone.docs[id].live && Key(gone.docs[id].mp, gone.docs[id].path) !in gone.obs;
      StrandedAt(cfg, db, ev.oldPath, ev.isDir, id);
      assert Key(gone.docs[id].mp, gone.docs[id].path) !in after.obs;
    }
  }

  lemma StrandedAt(cfg: Config, db: Db, path: Path, isDir: bool, id: nat)
    requires Observed(db) && UniqueLive(db)
    requires var gone := ApplyDelete(cfg, db, path, isDir);
             id in gone.docs && gone.docs[id].live && Key(gone.docs[id].mp, gone.docs[id].path) !in gone.obs
    ensures Resolve(cfg, path) == Some(ApplyDelete(cfg, db, path, isDir).docs[id].mp)
  {
    var gone := ApplyDelete(cfg, db, path, isDir);
    assert gone.docs[id] == db.docs[id];
  }

  lemma {:induction false} ScanAddsRows(cfg: Config, db: Db, stream: seq<Scanned>, epoch: int)
    ensures db.obs.Keys <= ObserveAll(cfg, db, stream, epoch).obs.Keys
    decreases |stream|
  {
    if stream != [] {
      ScanAddsRows(cfg, db, stream[..|stream| - 1], epoch);
    }
  }

  lemma ScanKeepsObserved(cfg: Config, db: Db, m: Mountpoint, stream: seq<Scanned>)
    requires Observed(db)
    ensures Observed(ReconcileRoot(cfg, db, m, stream))
  {
    var begun := NextScanEpoch(db);
    var seen := ObserveAll(cfg, begun, stream, begun.epoch);
    ScanAddsRows(cfg, begun, stream, begun.epoch);
    ObserveAllTouchesNoDocument(cfg, begun, stream, begun.epoch);
    SweepKeepsObserved(seen, m, begun.epoch);
  }

  lemma SweepKeepsObserved(db: Db, m: Mountpoint, epoch: int)
    requires Observed(db)
    ensures Observed(SweepRoot(db, m.id, m.root, epoch))
  {
    hide Owed;
    var after := SweepRoot(db, m.id, m.root, epoch);
    forall id | id in after.docs && after.docs[id].live
      ensures Key(after.docs[id].mp, after.docs[id].path) in after.obs
    {
      var k := Key(db.docs[id].mp, db.docs[id].path);
      assert k in db.obs;
      assert Unseen(k, db.obs[k], m.id, m.root, epoch) ==> k.path in Gone(db, m.id, m.root, epoch);
    }
  }

  lemma ResolvedObserved(db: Db, mp: int, path: Path, o: Observation, digest: string)
    requires Observed(db) && Key(mp, path) in db.obs
    ensures Observed(ResolveDocument(db, mp, path, o, digest).0)
  {
  }

  lemma PromoteKeepsObserved(db: Db, mp: int, path: Path, observed: Observation, digest: string, size: int)
    requires Observed(db)
    ensures Observed(Promote(db, mp, path, observed, digest, size))
  {
    var k := Key(mp, path);
    if k in db.obs && !db.obs[k].isDir && SameFile(observed, db.obs[k]) {
      hide ResolveDocument, Flip, UpsertContentVersion;
      var (d1, doc) := ResolveDocument(db, mp, path, db.obs[k], digest);
      ResolvedObserved(db, mp, path, db.obs[k], digest);
      var d2 := UpsertContentVersion(d1, digest, size);
      UpsertKeepsObserved(d1, digest, size);
      if doc in d2.docs {
        FlipKeepsObserved(d2, doc, d2.docs[doc].version, d2.versions[digest].id);
      }
    }
  }

  lemma UpsertKeepsObserved(db: Db, digest: string, size: int)
    requires Observed(db)
    ensures Observed(UpsertContentVersion(db, digest, size)) && digest in UpsertContentVersion(db, digest, size).versions
  {
  }

  lemma FlipKeepsObserved(db: Db, doc: nat, superseded: nat, version: nat)
    requires Observed(db)
    ensures Observed(Flip(db, doc, superseded, version))
  {
    if doc in db.docs {
      FlipShape(db, doc, superseded, version);
      hide Flip;
    }
  }

  /** Over every run in which no event strands a document, every live document's path is observed. */
  lemma {:induction false} RunObserved(cfg: Config, steps: seq<Step>)
    requires forall n :: 0 <= n < |steps| && steps[n].Applied? ==> !Strands(cfg, Run(cfg, EMPTY_DB, steps[..n]), steps[n].ev)
    ensures Observed(Run(cfg, EMPTY_DB, steps))
    decreases |steps|
  {
    if steps != [] {
      var init, last := steps[..|steps| - 1], steps[|steps| - 1];
      forall n | 0 <= n < |init| && init[n].Applied? ensures !Strands(cfg, Run(cfg, EMPTY_DB, init[..n]), init[n].ev) {
        assert init[..n] == steps[..n];
      }
      RunObserved(cfg, init);
      RunUnique(cfg, init);
      var before := Run(cfg, EMPTY_DB, init);
      hide ApplyEvent, ReconcileRoot, Promote, UniqueLive, Strands;
      match last
      case Applied(ev) => EventKeepsObservedIff(cfg, before, ev);
      case Rescanned(m, stream) => ScanKeepsObserved(cfg, before, m, stream);
      case Abandoned =>
      case Marked(at) =>
      case Promoted(mp, path, observed, digest, size) => PromoteKeepsObserved(before, mp, path, observed, digest, size);
    }
  }

  /** The stranding is real: a promoted file whose path is next deleted as a directory leaves a live
      document nothing observes. */
  lemma StrandingHappens(cfg: Config, stat: Option<Stat>)
    requires Resolve(cfg, "/srv/a") == Some(1)
    ensures var steps := StrandingRun(stat);
            Observed(Run(cfg, EMPTY_DB, steps[..2])) && !Observed(Run(cfg, EMPTY_DB, steps))
  {
    var steps := StrandingRun(stat);
    var o := ObservationOf(stat, false, 0);
    var s1 := After(cfg, EMPTY_DB, steps[0]);
    var s2 := After(cfg, s1, steps[1]);
    hide After;
    FirstObserved(cfg, stat);
    PromotedAlone(cfg, s1, o);
    StrandedAlone(cfg, s2, o);
    assert steps[..2] == [steps[0], steps[1]] && [steps[0], steps[1]][..1] == [steps[0]] && [steps[0]][..0] == [];
    assert Run(cfg, EMPTY_DB, [steps[0]]) == s1;
    assert Run(cfg, EMPTY_DB, steps[..2]) == s2;
  }

  lemma FirstObserved(cfg: Config, stat: Option<Stat>)
    requires Resolve(cfg, "/srv/a") == Some(1)
    ensures var db := After(cfg, EMPTY_DB, StrandingRun(stat)[0]);
            && db.obs == map[Key(1, "/srv/a") := ObservationOf(stat, false, 0)]
            && db.docs == map[] && db.nextDoc == 1 && db.watermark == 1
  {
  }

  lemma PromotedAlone(cfg: Config, db: Db, o: Observation)
    requires db.obs == map[Key(1, "/srv/a") := o] && !o.isDir && db.docs == map[] && db.nextDoc == 1
    ensures var after := After(cfg, db, Promoted(1, "/srv/a", o, "h", 3));
            && after.obs == db.obs && after.watermark == db.watermark
            && after.docs.Keys == {1} && LiveAt(after, 1, 1, "/srv/a")
  {
    CreatedAlone(db, o);
    hide ResolveDocument;
  }

  lemma CreatedAlone(db: Db, o: Observation)
    requires db.docs == map[] && db.nextDoc == 1
    ensures ResolveDocument(db, 1, "/srv/a", o, "h") == (CreateDocument(db, 1, "/srv/a", o.dev, o.ino), 1)
  {
  }

  lemma StrandedAlone(cfg: Config, db: Db, o: Observation)
    requires Resolve(cfg, "/srv/a") == Some(1) && db.watermark == 1
    requires db.obs == map[Key(1, "/srv/a") := o] && db.docs.Keys == {1} && LiveAt(db, 1, 1, "/srv/a")
    ensures Observed(db) && !Observed(After(cfg, db, Applied(Event(2, Delete, "/srv/a", "", true, None))))
  {
    assert 1 in DocsAt(db, 1, "/srv/a");
    EventKeepsObservedIff(cfg, db, Event(2, Delete, "/srv/a", "", true, None));
  }

  function StrandingRun(stat: Option<Stat>): seq<Step> {
    [Applied(Event(1, CloseWrite, "/srv/a", "", false, stat)),
     Promoted(1, "/srv/a", ObservationOf(stat, false, 0), "h", 3),
     Applied(Event(2, Delete, "/srv/a", "", true, None))]
  }
}
