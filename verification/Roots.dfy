/** No run ever records a row outside the root it is filed under. */
module Roots {
  import opened Common
  import opened Paths
  import opened Tables
  import opened Reconcile
  import opened Scans
  import opened Replay
  import opened Tracking
  import ObservedPaths

  /** A row beneath a directory lies under the root the directory resolves to. */
  lemma BeneathHasRoot(cfg: Config, dir: Path, k: Key)
    requires Resolve(cfg, dir) == Some(k.mp) && Beneath(k.path, dir)
    ensures HasRoot(cfg, k)
  {
    ResolvedRoot(cfg, Key(k.mp, dir));
    var i :| 0 <= i < |cfg.mountpoints| && RootOf(cfg, i, Key(k.mp, dir));
    BeneathStaysContained(cfg.mountpoints[i].root, dir, k.path);
    assert RootOf(cfg, i, k);
  }

  /** A directory rename within a root moves rows only to places beneath its destination. */
  lemma RenameKeepsRooted(cfg: Config, db: Db, mp: int, oldPath: Path, newPath: Path, stat: Option<Stat>)
    requires Rooted(cfg, db) && Resolve(cfg, newPath) == Some(mp)
    ensures Rooted(cfg, MoveDirectory(db, mp, oldPath, newPath, stat))
  {
    hide MoveDirectory, ClearDestination, Resolve, HasRoot;
    forall k | k in MoveDirectory(db, mp, oldPath, newPath, stat).obs ensures HasRoot(cfg, k) {
      RenamedRow(db, mp, oldPath, newPath, stat, k);
      ObservedPaths.ClearedRow(db, mp, newPath, k);
      if k == Key(mp, newPath) {
        ResolvedRoot(cfg, k);
      } else if Under(k, mp, SubtreePrefix(newPath)) {
        BeneathHasRoot(cfg, newPath, k);
      }
    }
  }

  lemma FileMoveKeepsRooted(cfg: Config, db: Db, mp: int, oldPath: Path, newPath: Path, stat: Option<Stat>)
    requires Rooted(cfg, db) && Resolve(cfg, newPath) == Some(mp)
    ensures Rooted(cfg, MoveFile(cfg, db, mp, oldPath, newPath, stat))
  {
    hide MoveFile, Resolve, HasRoot;
    forall k | k in MoveFile(cfg, db, mp, oldPath, newPath, stat).obs ensures HasRoot(cfg, k) {
      FileMoveRow(cfg, db, mp, oldPath, newPath, stat, k);
      if k == Key(mp, newPath) {
        ResolvedRoot(cfg, k);
      }
    }
  }

  lemma ObserveKeepsRooted(cfg: Config, db: Db, path: Path, stat: Option<Stat>, isDir: bool, trigger: Trigger)
    requires Rooted(cfg, db)
    ensures Rooted(cfg, Observe(cfg, db, path, stat, isDir, trigger)) && Rooted(cfg, ObserveOnly(cfg, db, path, stat, isDir))
  {
    hide Observe, ObserveOnly, Resolve, HasRoot;
    forall k | k in Observe(cfg, db, path, stat, isDir, trigger).obs || k in ObserveOnly(cfg, db, path, stat, isDir).obs
      ensures HasRoot(cfg, k)
    {
      ObserveRow(cfg, db, path, stat, isDir, trigger, k);
      if k.path == path && Resolve(cfg, path) == Some(k.mp) {
        ResolvedRoot(cfg, k);
      }
    }
  }

  lemma DeleteKeepsRooted(cfg: Config, db: Db, path: Path, isDir: bool)
    requires Rooted(cfg, db)
    ensures Rooted(cfg, ApplyDelete(cfg, db, path, isDir))
  {
    hide ApplyDelete, HasRoot;
    forall k | k in ApplyDelete(cfg, db, path, isDir).obs ensures HasRoot(cfg, k) {
      DeleteRow(cfg, db, path, isDir, k);
    }
  }

  lemma EventKeepsRooted(cfg: Config, db: Db, ev: Event)
    requires Rooted(cfg, db)
    ensures Rooted(cfg, ApplyEvent(cfg, db, ev))
  {
    hide Rooted, ApplyDelete, MoveFile, MoveDirectory, Observe, ObserveOnly;
    match ev.kind {
      case Delete => DeleteKeepsRooted(cfg, db, ev.path, ev.isDir);
      case Move =>
        var from, to := Resolve(cfg, ev.oldPath), Resolve(cfg, ev.path);
        if from.Some? && from == to {
          RenameKeepsRooted(cfg, db, to.value, ev.oldPath, ev.path, ev.stat);
          FileMoveKeepsRooted(cfg, db, to.value, ev.oldPath, ev.path, ev.stat);
        } else {
          DeleteKeepsRooted(cfg, db, ev.oldPath, ev.isDir);
          ObserveKeepsRooted(cfg, ApplyDelete(cfg, db, ev.oldPath, ev.isDir), ev.path, ev.stat, ev.isDir, Settled);
        }
      case CloseWrite => ObserveKeepsRooted(cfg, db, ev.path, ev.stat, ev.isDir, Settled);
      case Unknown =>
      case _ => ObserveKeepsRooted(cfg, db, ev.path, ev.stat, ev.isDir, Debounced);
    }
    SameRows(cfg, ApplyKind(cfg, db, ev), ApplyEvent(cfg, db, ev), db);
  }

  lemma SameRows(cfg: Config, a: Db, b: Db, c: Db)
    requires Rooted(cfg, a) && Rooted(cfg, c) && (b.obs == a.obs || b.obs == c.obs)
    ensures Rooted(cfg, b)
  {
    hide HasRoot;
  }

  lemma ScanKeepsRooted(cfg: Config, db: Db, m: Mountpoint, stream: seq<Scanned>)
    requires Rooted(cfg, db) && EpochsDrawn(db)
    ensures Rooted(cfg, ReconcileRoot(cfg, db, m, stream))
  {
    hide ReconcileRoot, HasRoot, EpochsDrawn, Resolve;
    forall k | k in ReconcileRoot(cfg, db, m, stream).obs ensures HasRoot(cfg, k) {
      ScanLeavesExactlyWhatItSaw(cfg, db, m, stream, k);
      if Resolve(cfg, k.path) == Some(k.mp) {
        ResolvedRoot(cfg, k);
      }
    }
  }

  /** Over every run from rows that lie under their roots (an empty table is one), every row always does. */
  lemma {:induction false} RunRooted(cfg: Config, db: Db, steps: seq<Step>)
    requires Rooted(cfg, db) && EpochsDrawn(db)
    ensures Rooted(cfg, Run(cfg, db, steps))
    decreases |steps|
  {
    if steps != [] {
      var before := Run(cfg, db, steps[..|steps| - 1]);
      RunRooted(cfg, db, steps[..|steps| - 1]);
      RunEpochs(cfg, db, steps[..|steps| - 1]);
      hide ApplyEvent, ReconcileRoot, Promote, HasRoot, EpochsDrawn;
      match steps[|steps| - 1]
      case Applied(ev) => EventKeepsRooted(cfg, before, ev);
      case Rescanned(m, stream) => ScanKeepsRooted(cfg, before, m, stream);
      case Abandoned =>
      case Marked(at) =>
      case Promoted(mp, path, observed, digest, size) => PromoteEpochs(before, mp, path, observed, digest, size);
    }
  }

  /** So a rescan of any database a run has made, with the replay that follows it, is exact. */
  lemma RescanAfterAnyRunIsExact(
      cfg: Config, steps: seq<Step>, streams: seq<seq<Scanned>>, moments: seq<Path -> nat>, head: int,
      fs: Files, evs: seq<Event>)
    requires Distinct(cfg.mountpoints) && Run(cfg, EMPTY_DB, steps).watermark <= head
    requires AllWalked(cfg, streams, moments, fs, evs)
    requires Follows(evs, head) && forall i :: 0 <= i < |evs| ==> Plain(cfg, evs[i])
    ensures |streams| == |cfg.mountpoints|
    ensures var scanned := SetWatermark(ReconcileRoots(cfg, Run(cfg, EMPTY_DB, steps), streams, |streams|), head);
            Mirrors(cfg, ApplyAll(cfg, scanned, evs), HappenAll(fs, evs))
  {
    RunRooted(cfg, EMPTY_DB, steps);
    RunEpochs(cfg, EMPTY_DB, steps);
    hide Run, Mirrors, ApplyAll, ReconcileRoots, HappenAll;
    ScanPlusReplayIsExact(cfg, Run(cfg, EMPTY_DB, steps), streams, moments, head, fs, evs);
  }
}
