/** What the rows say: each is what was last reported for its path, or for the path it was renamed from. */
module Observations {
  import opened Common
  import opened Paths
  import opened Tables
  import opened Reconcile
  import opened Scans
  import opened ObservedPaths

  /** The row says what the stat says; a report without one says nothing. */
  predicate Carries(o: Observation, stat: Option<Stat>) {
    match stat
    case None => o.size == 0 && o.mode == 0 && o.mtime == 0 && o.ino == 0 && o.dev == 0
    case Some(s) =>
      && o.size == ToInt64(s.size) && o.mode == ToInt64(s.mode) && o.mtime == s.mtime
      && o.ino == ToInt64(s.ino) && o.dev == ToInt64(s.dev)
  }

  /** The row is the one k has in db. */
  predicate Stays(db: Db, k: Key, row: Observation) {
    k in db.obs && row == db.obs[k]
  }

  /** The event says what is at its path. */
  predicate Reports(cfg: Config, ev: Event, k: Key) {
    !ev.kind.Delete? && !ev.kind.Unknown? && k.path == ev.path && Resolve(cfg, ev.path) == Some(k.mp)
  }

  /** A directory is renamed within its root, k's new place being beneath it. */
  predicate Brings(cfg: Config, ev: Event, k: Key) {
    && ev.kind.Move? && ev.isDir && Resolve(cfg, ev.oldPath) == Some(k.mp) && Resolve(cfg, ev.path) == Some(k.mp)
    && Under(k, k.mp, SubtreePrefix(ev.path))
  }

  lemma ObservedRowIs(cfg: Config, db: Db, path: Path, stat: Option<Stat>, isDir: bool, trigger: Trigger, k: Key)
    ensures var here := k.path == path && Resolve(cfg, path) == Some(k.mp);
            var after, only := Observe(cfg, db, path, stat, isDir, trigger), ObserveOnly(cfg, db, path, stat, isDir);
            && after.obs == only.obs
            && (k in only.obs ==>
                  if here then Carries(only.obs[k], stat) && only.obs[k].isDir == isDir && only.obs[k].seenEpoch == 0
                  else Stays(db, k, only.obs[k]))
  {
    hide Resolve, ToInt64;
  }

  /** The row is what the event makes of it. */
  predicate RowIs(cfg: Config, db: Db, ev: Event, k: Key, row: Observation) {
    if Reports(cfg, ev, k) then Carries(row, ev.stat) && row.isDir == ev.isDir && row.seenEpoch == 0
    else if Brings(cfg, ev, k) then Stays(db, Source(k, SubtreePrefix(ev.oldPath), SubtreePrefix(ev.path)), row)
    else Stays(db, k, row)
  }

  lemma MoveRowIs(cfg: Config, db: Db, ev: Event, k: Key)
    requires ev.kind.Move? && k in ApplyMove(cfg, db, ev).obs
    ensures RowIs(cfg, db, ev, k, ApplyMove(cfg, db, ev).obs[k])
  {
    hide Resolve, ToInt64, MoveDirectory, MoveFile, ApplyDelete, Observe, Carries, Stays;
    var from, to := Resolve(cfg, ev.oldPath), Resolve(cfg, ev.path);
    if from.Some? && from == to {
      if ev.isDir {
        RenamedRowIs(db, to.value, ev.oldPath, ev.path, ev.stat, k);
      } else {
        MovedRowIs(cfg, db, to.value, ev.oldPath, ev.path, ev.stat, k);
      }
    } else {
      var gone := ApplyDelete(cfg, db, ev.oldPath, ev.isDir);
      ObservedRowIs(cfg, gone, ev.path, ev.stat, ev.isDir, Settled, k);
      if k in gone.obs {
        DeletedRowStays(cfg, db, ev.oldPath, ev.isDir, k);
      }
      StaysIs(gone, k, ApplyMove(cfg, db, ev).obs[k]);
    }
  }

  lemma StaysIs(db: Db, k: Key, row: Observation)
    ensures Stays(db, k, row) <==> k in db.obs && row == db.obs[k]
  {
  }

  /** After an event the row at the path it reports carries what it reports, what a directory rename brings is
      what stood there before, and every other row left is as it was. */
  lemma EventRowIs(cfg: Config, db: Db, ev: Event, k: Key)
    requires k in ApplyKind(cfg, db, ev).obs
    ensures RowIs(cfg, db, ev, k, ApplyKind(cfg, db, ev).obs[k])
  {
    hide Resolve, ToInt64, ApplyMove, ApplyDelete, Observe, ObserveOnly, Carries;
    match ev.kind
    case Delete => DeletedRowStays(cfg, db, ev.path, ev.isDir, k);
    case Move => MoveRowIs(cfg, db, ev, k);
    case Unknown =>
    case CloseWrite => ObservedRowIs(cfg, db, ev.path, ev.stat, ev.isDir, Settled, k);
    case _ => ObservedRowIs(cfg, db, ev.path, ev.stat, ev.isDir, Debounced, k);
  }

  lemma DeletedRowStays(cfg: Config, db: Db, path: Path, isDir: bool, k: Key)
    requires k in ApplyDelete(cfg, db, path, isDir).obs
    ensures Stays(db, k, ApplyDelete(cfg, db, path, isDir).obs[k])
  {
    hide Owed, DocsAt, DocsUnder;
  }

  lemma MovedRowIs(cfg: Config, db: Db, mp: int, oldPath: Path, newPath: Path, stat: Option<Stat>, k: Key)
    requires k in MoveFile(cfg, db, mp, oldPath, newPath, stat).obs
    ensures var row := MoveFile(cfg, db, mp, oldPath, newPath, stat).obs[k];
            if k == Key(mp, newPath) then Carries(row, stat) && !row.isDir && row.seenEpoch == 0 else Stays(db, k, row)
  {
    hide Owed, DocsAt, FindByPath, ToInt64;
  }

  lemma RenamedRowIs(db: Db, mp: int, oldPath: Path, newPath: Path, stat: Option<Stat>, k: Key)
    requires k in MoveDirectory(db, mp, oldPath, newPath, stat).obs
    ensures var row := MoveDirectory(db, mp, oldPath, newPath, stat).obs[k];
            var o, n := SubtreePrefix(oldPath), SubtreePrefix(newPath);
            if k == Key(mp, newPath) then Carries(row, stat) && row.isDir && row.seenEpoch == 0
            else if Under(k, mp, n) then Stays(db, Source(k, o, n), row)
            else Stays(db, k, row)
  {
    hide Owed, DocsUnder, ToInt64;
    var o, n := SubtreePrefix(oldPath), SubtreePrefix(newPath);
    var d1 := ClearDestination(db, mp, newPath);
    ClearedRow(db, mp, newPath, k);
    if Under(k, mp, n) {
      ClearedRow(db, mp, newPath, Source(k, o, n));
    }
    MovedKey(d1, mp, o, n, k);
  }

  /** A walk's row carries what the walk reports of the path, its kind read off the mode. */
  predicate Listed(o: Scanned, row: Observation, epoch: int) {
    Carries(row, o.stat) && (row.isDir <==> ListsDirectory(o)) && row.seenEpoch == epoch
  }

  lemma ScannedRowListed(o: Scanned, epoch: int)
    ensures Listed(o, ScannedObservation(o, epoch), epoch)
  {
    DirectoryBit(o, epoch);
    hide HasDirBit, ToInt64;
  }

  lemma {:induction false} ListedRowIs(cfg: Config, db: Db, stream: seq<Scanned>, epoch: int, i: nat, mp: int)
    requires Once(stream) && i < |stream| && Resolve(cfg, stream[i].path) == Some(mp)
    ensures var k := Key(mp, stream[i].path);
            var seen := ObserveAll(cfg, db, stream, epoch);
            k in seen.obs && seen.obs[k] == ScannedObservation(stream[i], epoch)
    decreases |stream|
  {
    hide Resolve, ScannedObservation, Accounted;
    if i < |stream| - 1 {
      ListedRowIs(cfg, db, stream[..|stream| - 1], epoch, i, mp);
    }
  }

  lemma {:induction false} OtherRowIs(cfg: Config, db: Db, stream: seq<Scanned>, epoch: int, k: Key)
    requires forall i :: 0 <= i < |stream| && stream[i].path == k.path ==> Resolve(cfg, k.path) != Some(k.mp)
    requires k in ObserveAll(cfg, db, stream, epoch).obs
    ensures Stays(db, k, ObserveAll(cfg, db, stream, epoch).obs[k])
    decreases |stream|
  {
    hide Resolve, ScannedObservation, Accounted;
    if stream != [] {
      OtherRowIs(cfg, db, stream[..|stream| - 1], epoch, k);
    }
  }

  /** After a scan the row of a listed path carries what the walk reports of it. */
  lemma ScanRowIs(cfg: Config, db: Db, m: Mountpoint, stream: seq<Scanned>, i: nat, mp: int)
    requires Once(stream) && i < |stream| && Resolve(cfg, stream[i].path) == Some(mp)
    ensures var k := Key(mp, stream[i].path);
            var after := ReconcileRoot(cfg, db, m, stream);
            k in after.obs && Listed(stream[i], after.obs[k], db.epoch + 1)
  {
    var begun := NextScanEpoch(db);
    ListedRowIs(cfg, begun, stream, begun.epoch, i, mp);
    ScannedRowListed(stream[i], begun.epoch);
    hide Owed, ObserveAll, Carries, HasDirBit, ToInt64;
  }

  /** Every other row left by it is as it was. */
  lemma ScanRowStays(cfg: Config, db: Db, m: Mountpoint, stream: seq<Scanned>, k: Key)
    requires forall i :: 0 <= i < |stream| && stream[i].path == k.path ==> Resolve(cfg, k.path) != Some(k.mp)
    requires k in ReconcileRoot(cfg, db, m, stream).obs
    ensures Stays(db, k, ReconcileRoot(cfg, db, m, stream).obs[k])
  {
    var begun := NextScanEpoch(db);
    hide Owed, ObserveAll, Resolve;
    OtherRowIs(cfg, begun, stream, begun.epoch, k);
  }
}
