/** What one root's mark-and-sweep scan leaves behind when it commits. */
module Scans {
  import opened Common
  import opened Paths
  import opened Tables
  import opened Reconcile
  import opened Ledger
  import opened LivePaths

  /** Every row's epoch was drawn from the sequence, so the next one drawn is on no row yet. */
  ghost predicate EpochsDrawn(db: Db) {
    db.epoch >= 0 && forall k :: k in db.obs ==> db.obs[k].seenEpoch <= db.epoch
  }

  /** The walk listed k's path, and k's root is the deepest that contains it. */
  ghost predicate ScannedKey(cfg: Config, stream: seq<Scanned>, k: Key) {
    Resolve(cfg, k.path) == Some(k.mp) && exists i :: 0 <= i < |stream| && stream[i].path == k.path
  }

  predicate Lists(cfg: Config, o: Scanned, k: Key) {
    o.path == k.path && Resolve(cfg, k.path) == Some(k.mp)
  }

  lemma ScannedKeyStep(cfg: Config, stream: seq<Scanned>, k: Key)
    requires stream != []
    ensures ScannedKey(cfg, stream, k)
       <==> ScannedKey(cfg, stream[..|stream| - 1], k) || Lists(cfg, stream[|stream| - 1], k)
  {
    var init, last := stream[..|stream| - 1], stream[|stream| - 1];
    if ScannedKey(cfg, init, k) {
      var i :| 0 <= i < |init| && init[i].path == k.path;
      assert stream[i].path == k.path;
    }
  }

  lemma ObserveOneRow(cfg: Config, db: Db, o: Scanned, epoch: int, k: Key)
    ensures var after := ObserveScanned(cfg, db, o, epoch);
            && (k in after.obs <==> k in db.obs || Lists(cfg, o, k))
            && (Lists(cfg, o, k) ==> after.obs[k] == ScannedObservation(o, epoch))
            && (k in db.obs && !Lists(cfg, o, k) ==> after.obs[k] == db.obs[k])
  {
  }

  /** The rows while a scan of the given epoch is under way. */
  lemma {:induction false} ObservedSoFar(cfg: Config, db: Db, stream: seq<Scanned>, epoch: int, k: Key)
    requires forall j :: j in db.obs ==> db.obs[j].seenEpoch < epoch
    ensures var seen := ObserveAll(cfg, db, stream, epoch);
            && (k in seen.obs <==> k in db.obs || ScannedKey(cfg, stream, k))
            && (k in seen.obs ==> (seen.obs[k].seenEpoch == epoch <==> ScannedKey(cfg, stream, k)))
            && (k in seen.obs && !ScannedKey(cfg, stream, k) ==> seen.obs[k] == db.obs[k])
    decreases |stream|
  {
    if stream != [] {
      var init, last := stream[..|stream| - 1], stream[|stream| - 1];
      hide ObserveScanned, ScannedKey;
      ObservedSoFar(cfg, db, init, epoch, k);
      ScannedKeyStep(cfg, stream, k);
      ObserveOneRow(cfg, ObserveAll(cfg, db, init, epoch), last, epoch, k);
    }
  }

  /** When a root's scan commits, its rows are exactly the scanned paths whose deepest root it is; the rows
      of the other roots only gain what the walk saw of them. */
  lemma ScanLeavesExactlyWhatItSaw(cfg: Config, db: Db, m: Mountpoint, stream: seq<Scanned>, k: Key)
    requires EpochsDrawn(db)
    ensures var after := ReconcileRoot(cfg, db, m, stream);
            k in after.obs <==>
              ScannedKey(cfg, stream, k) || (k in db.obs && !(k.mp == m.id && Contains(m.root, k.path)))
  {
    var begun := NextScanEpoch(db);
    ObservedSoFar(cfg, begun, stream, begun.epoch, k);
    hide ObserveAll;
  }

  /** No live document remains at a path the sweep removed. */
  lemma NothingLivesWhereSwept(cfg: Config, db: Db, m: Mountpoint, stream: seq<Scanned>, k: Key)
    requires EpochsDrawn(db)
    requires k in db.obs && k.mp == m.id && Contains(m.root, k.path) && !ScannedKey(cfg, stream, k)
    ensures DocsAt(ReconcileRoot(cfg, db, m, stream), k.mp, k.path) == {}
  {
    var begun := NextScanEpoch(db);
    var seen := ObserveAll(cfg, begun, stream, begun.epoch);
    ObservedSoFar(cfg, begun, stream, begun.epoch, k);
    hide ObserveAll, Owed;
    assert k.path in Gone(seen, m.id, m.root, begun.epoch);
    var after := ReconcileRoot(cfg, db, m, stream);
    forall id ensures id !in DocsAt(after, k.mp, k.path) {
    }
  }

  /** A document survives a scan exactly when its own row does. */
  lemma SweptDocument(db: Db, m: Mountpoint, epoch: int, id: nat)
    requires id in db.docs && db.docs[id].live && Key(db.docs[id].mp, db.docs[id].path) in db.obs
    ensures var after := SweepRoot(db, m.id, m.root, epoch);
            && id in after.docs
            && (after.docs[id].live <==> Key(db.docs[id].mp, db.docs[id].path) in after.obs)
            && (after.docs[id].live ==> after.docs[id] == db.docs[id])
  {
    hide Owed;
    var k := Key(db.docs[id].mp, db.docs[id].path);
    assert Unseen(k, db.obs[k], m.id, m.root, epoch) <==> k.mp == m.id && k.path in Gone(db, m.id, m.root, epoch) by {
      forall j | j in db.obs && Unseen(j, db.obs[j], m.id, m.root, epoch) && j.path == k.path && k.mp == m.id
        ensures j == k {}
    }
  }

  /** The walk lists each path once. */
  predicate Once(stream: seq<Scanned>) {
    forall i, j :: 0 <= i < j < |stream| ==> stream[i].path != stream[j].path
  }

  lemma OneScanned(cfg: Config, db: Db, o: Scanned, epoch: int, k: Key, job: IngestJob)
    ensures var after := ObserveScanned(cfg, db, o, epoch);
            && after.ingest[job] >= db.ingest[job]
            && (k.path != o.path && k in db.obs ==> k in after.obs && after.obs[k] == db.obs[k])
            && (Resolve(cfg, o.path) == Some(k.mp) && k.path == o.path && job == IngestJob(k.mp, o.path, Settled)
                && cfg.allow(o.path) && !ScannedObservation(o, epoch).isDir ==>
                  && k in after.obs && after.obs[k] == ScannedObservation(o, epoch)
                  && (after.ingest[job] > db.ingest[job] || Accounted(db, k, after.obs[k])))
  {
    hide ScannedObservation, Resolve, Accounted;
  }

  /** What a scan decides about one listed path it may index, read off the state before the scan. */
  lemma {:induction false} QueuedOrAccounted(cfg: Config, db: Db, stream: seq<Scanned>, epoch: int, i: nat, mp: int)
    requires Once(stream) && i < |stream| && Resolve(cfg, stream[i].path) == Some(mp)
    requires cfg.allow(stream[i].path) && !ScannedObservation(stream[i], epoch).isDir
    ensures var seen := ObserveAll(cfg, db, stream, epoch);
            var k := Key(mp, stream[i].path);
            var job := IngestJob(mp, stream[i].path, Settled);
            && k in seen.obs && seen.obs[k] == ScannedObservation(stream[i], epoch)
            && (seen.ingest[job] > db.ingest[job] || Accounted(db, k, seen.obs[k]))
    decreases |stream|
  {
    var init, last := stream[..|stream| - 1], stream[|stream| - 1];
    var before := ObserveAll(cfg, db, init, epoch);
    assert ObserveAll(cfg, db, stream, epoch) == ObserveScanned(cfg, before, last, epoch);
    hide ObserveAll, ObserveScanned, ScannedObservation, Resolve;
    OneScanned(cfg, before, last, epoch, Key(mp, stream[i].path), IngestJob(mp, stream[i].path, Settled));
    ObserveAllTouchesNoDocument(cfg, db, init, epoch);
    ObserveAllQueues(cfg, db, init, epoch);
    if i < |init| {
      QueuedOrAccounted(cfg, db, init, epoch, i, mp);
    } else {
      UnlistedRow(cfg, db, init, epoch, Key(mp, last.path));
      assert DocsAt(before, mp, last.path) == DocsAt(db, mp, last.path);
    }
  }

  lemma {:induction false} ObserveAllQueues(cfg: Config, db: Db, stream: seq<Scanned>, epoch: int)
    ensures db.ingest <= ObserveAll(cfg, db, stream, epoch).ingest
    decreases |stream|
  {
    if stream != [] {
      ObserveAllQueues(cfg, db, stream[..|stream| - 1], epoch);
    }
  }

  /** The count a scan logs is the number of ingest jobs it really requested. */
  lemma {:induction false} QueuedCountIsExact(cfg: Config, db: Db, stream: seq<Scanned>, epoch: int)
    ensures |ObserveAll(cfg, db, stream, epoch).ingest| == |db.ingest| + QueuedCount(cfg, db, stream, epoch)
    decreases |stream|
  {
    if stream != [] {
      var init, last := stream[..|stream| - 1], stream[|stream| - 1];
      QueuedCountIsExact(cfg, db, init, epoch);
      QueuesAtMostOne(cfg, ObserveAll(cfg, db, init, epoch), last, epoch);
      hide ObserveScanned;
    }
  }

  lemma QueuesAtMostOne(cfg: Config, db: Db, o: Scanned, epoch: int)
    ensures var after := ObserveScanned(cfg, db, o, epoch);
            |after.ingest| == |db.ingest| + (if after.ingest != db.ingest then 1 else 0)
  {
  }

  lemma {:induction false} UnlistedRow(cfg: Config, db: Db, stream: seq<Scanned>, epoch: int, k: Key)
    requires forall i :: 0 <= i < |stream| ==> stream[i].path != k.path
    ensures var seen := ObserveAll(cfg, db, stream, epoch);
            (k in seen.obs <==> k in db.obs) && (k in seen.obs ==> seen.obs[k] == db.obs[k])
    decreases |stream|
  {
    if stream != [] {
      UnlistedRow(cfg, db, stream[..|stream| - 1], epoch, k);
    }
  }

  /** The tables account for a listed path: its row has the listed size and mtime, and a live document stands
      there. */
  ghost predicate AccountedFor(db: Db, k: Key, o: Scanned) {
    && k in db.obs
    && db.obs[k].size == (if o.stat.Some? then ToInt64(o.stat.value.size) else 0)
    && db.obs[k].mtime == (if o.stat.Some? then o.stat.value.mtime else 0)
    && exists id :: id in db.docs && db.docs[id].live && db.docs[id].mp == k.mp && db.docs[id].path == k.path
  }

  /** A listed path is a directory when bit 31 of the mode the walk reports for it is set. */
  predicate ListsDirectory(o: Scanned) {
    o.stat.Some? && (o.stat.value.mode / 0x8000_0000) % 2 == 1
  }

  lemma DirectoryBit(o: Scanned, epoch: int)
    ensures ScannedObservation(o, epoch).isDir <==> ListsDirectory(o)
  {
    if o.stat.Some? {
      SameBit(o.stat.value.mode);
    }
  }

  lemma SameBit(mode: nat)
    ensures (ToInt64(mode) / 0x8000_0000) % 2 == (mode / 0x8000_0000) % 2
  {
    var t := ToInt64(mode);
    BitOf(t, t / 0x8000_0000, (mode - t) / TWO_TO_64, mode);
  }

  lemma BitOf(t: int, q: int, k: int, u: int)
    requires q == t / 0x8000_0000 && u == t + k * TWO_TO_64
    ensures (u / 0x8000_0000) % 2 == q % 2
  {
    var r := t - q * 0x8000_0000;
    assert u == (q + k * 0x2_0000_0000) * 0x8000_0000 + r;
    QuotientIs(u, q + k * 0x2_0000_0000, r);
  }

  lemma QuotientIs(u: int, q: int, r: int)
    requires u == q * 0x8000_0000 + r && 0 <= r < 0x8000_0000
    ensures u / 0x8000_0000 == q
  {
  }

  /** Every scanned file this system indexes is, when the scan commits, queued by it, or has a live document
      and had the very size and mtime the walk reports; and its row now carries those. */
  lemma ScannedFileIsQueuedOrAccounted(cfg: Config, db: Db, m: Mountpoint, stream: seq<Scanned>, i: nat, mp: int)
    requires EpochsDrawn(db) && Once(stream)
    requires i < |stream| && Resolve(cfg, stream[i].path) == Some(mp)
    requires cfg.allow(stream[i].path) && !ListsDirectory(stream[i])
    ensures var after := ReconcileRoot(cfg, db, m, stream);
            var k := Key(mp, stream[i].path);
            var job := IngestJob(mp, stream[i].path, Settled);
            var size := if stream[i].stat.Some? then ToInt64(stream[i].stat.value.size) else 0;
            var mtime := if stream[i].stat.Some? then stream[i].stat.value.mtime else 0;
            && k in after.obs && after.obs[k].size == size && after.obs[k].mtime == mtime
            && (after.ingest[job] > db.ingest[job]
                || (k in db.obs && db.obs[k].size == size && db.obs[k].mtime == mtime && DocsAt(after, mp, k.path) != {}))
  {
    var begun := NextScanEpoch(db);
    var k := Key(mp, stream[i].path);
    var seen := ObserveAll(cfg, begun, stream, begun.epoch);
    DirectoryBit(stream[i], begun.epoch);
    hide HasDirBit, ToInt64;
    QueuedOrAccounted(cfg, begun, stream, begun.epoch, i, mp);
    ObserveAllTouchesNoDocument(cfg, begun, stream, begun.epoch);
    ObservedSoFar(cfg, begun, stream, begun.epoch, k);
    assert ScannedKey(cfg, stream, k);
    hide ObserveAll, Owed;
    var after := ReconcileRoot(cfg, db, m, stream);
    assert after.obs[k] == seen.obs[k];
    if Accounted(begun, k, seen.obs[k]) {
      var id :| id in DocsAt(begun, mp, k.path);
      SweptDocument(seen, m, begun.epoch, id);
      assert id in DocsAt(after, mp, k.path);
    }
  }

  // ---- epochs over runs ----

  lemma {:induction false} ObserveAllEpochs(cfg: Config, db: Db, stream: seq<Scanned>, epoch: int)
    requires EpochsDrawn(db) && epoch == db.epoch
    ensures EpochsDrawn(ObserveAll(cfg, db, stream, epoch))
    decreases |stream|
  {
    if stream != [] {
      ObserveAllEpochs(cfg, db, stream[..|stream| - 1], epoch);
      ObserveAllTouchesNoDocument(cfg, db, stream[..|stream| - 1], epoch);
    }
  }

  lemma ScanEpochs(cfg: Config, db: Db, m: Mountpoint, stream: seq<Scanned>)
    requires EpochsDrawn(db)
    ensures EpochsDrawn(ReconcileRoot(cfg, db, m, stream))
  {
    var begun := NextScanEpoch(db);
    ObserveAllEpochs(cfg, begun, stream, begun.epoch);
    hide ObserveAll, Owed;
  }

  lemma MovedRowsEpochs(db: Db, mp: int, o: Path, n: Path)
    requires EpochsDrawn(db)
    ensures EpochsDrawn(MoveObservationSubtree(db, mp, o, n))
  {
  }

  lemma DirectoryMoveEpochs(db: Db, mp: int, oldPath: Path, newPath: Path, stat: Option<Stat>)
    requires EpochsDrawn(db)
    ensures EpochsDrawn(MoveDirectory(db, mp, oldPath, newPath, stat))
  {
    var cleared := ClearDestination(db, mp, newPath);
    assert EpochsDrawn(cleared);
    MovedRowsEpochs(cleared, mp, SubtreePrefix(oldPath), SubtreePrefix(newPath));
    hide ClearDestination, MoveObservationSubtree;
    MoveObservationKeepsDocs(cleared, mp, SubtreePrefix(oldPath), SubtreePrefix(newPath));
  }

  lemma DeleteEpochs(cfg: Config, db: Db, path: Path, isDir: bool)
    requires EpochsDrawn(db)
    ensures EpochsDrawn(ApplyDelete(cfg, db, path, isDir))
  {
    hide Owed;
  }

  lemma ObserveEpochs(cfg: Config, db: Db, path: Path, stat: Option<Stat>, isDir: bool, trigger: Trigger)
    requires EpochsDrawn(db)
    ensures EpochsDrawn(Observe(cfg, db, path, stat, isDir, trigger)) && EpochsDrawn(ObserveOnly(cfg, db, path, stat, isDir))
  {
  }

  lemma KindEpochs(cfg: Config, db: Db, ev: Event)
    requires EpochsDrawn(db)
    ensures EpochsDrawn(ApplyKind(cfg, db, ev))
  {
    hide ApplyDelete, MoveDirectory, MoveFile, Observe, ObserveOnly, EpochsDrawn;
    var to := Resolve(cfg, ev.path);
    match ev.kind
    case Delete => DeleteEpochs(cfg, db, ev.path, ev.isDir);
    case Move =>
      DeleteEpochs(cfg, db, ev.oldPath, ev.isDir);
      ObserveEpochs(cfg, ApplyDelete(cfg, db, ev.oldPath, ev.isDir), ev.path, ev.stat, ev.isDir, Settled);
      if to.Some? {
        DirectoryMoveEpochs(db, to.value, ev.oldPath, ev.path, ev.stat);
        FileMoveEpochs(cfg, db, to.value, ev.oldPath, ev.path, ev.stat);
      }
    case CloseWrite => ObserveEpochs(cfg, db, ev.path, ev.stat, ev.isDir, Settled);
    case _ => ObserveEpochs(cfg, db, ev.path, ev.stat, ev.isDir, Debounced);
  }

  lemma EventEpochs(cfg: Config, db: Db, ev: Event)
    requires EpochsDrawn(db)
    ensures EpochsDrawn(ApplyEvent(cfg, db, ev))
  {
    KindEpochs(cfg, db, ev);
    hide ApplyKind;
  }

  lemma FileMoveEpochs(cfg: Config, db: Db, mp: int, oldPath: Path, newPath: Path, stat: Option<Stat>)
    requires EpochsDrawn(db)
    ensures EpochsDrawn(MoveFile(cfg, db, mp, oldPath, newPath, stat))
  {
    hide Owed;
  }

  lemma PromoteEpochs(db: Db, mp: int, path: Path, observed: Observation, digest: string, size: int)
    ensures var after := Promote(db, mp, path, observed, digest, size);
            after.obs == db.obs && after.epoch == db.epoch && after.watermark == db.watermark
  {
    hide ResolveDocument, Flip, SameFile;
    var k := Key(mp, path);
    if k in db.obs {
      ResolveRows(db, mp, path, db.obs[k], digest);
      var (d1, doc) := ResolveDocument(db, mp, path, db.obs[k], digest);
      var d2 := UpsertContentVersion(d1, digest, size);
      if doc in d2.docs {
        FlipShape(d2, doc, d2.docs[doc].version, d2.versions[digest].id);
      }
    }
  }

  lemma ResolveRows(db: Db, mp: int, path: Path, o: Observation, digest: string)
    ensures var d := ResolveDocument(db, mp, path, o, digest).0;
            d.obs == db.obs && d.epoch == db.epoch && d.watermark == db.watermark
  {
  }

  lemma {:induction false} RunEpochs(cfg: Config, db: Db, steps: seq<Step>)
    requires EpochsDrawn(db)
    ensures EpochsDrawn(Run(cfg, db, steps))
    decreases |steps|
  {
    if steps != [] {
      var before := Run(cfg, db, steps[..|steps| - 1]);
      RunEpochs(cfg, db, steps[..|steps| - 1]);
      hide ApplyEvent, ReconcileRoot, Promote;
      match steps[|steps| - 1]
      case Applied(ev) => EventEpochs(cfg, before, ev);
      case Rescanned(m, stream) => ScanEpochs(cfg, before, m, stream);
      case Abandoned =>
      case Marked(at) =>
      case Promoted(mp, path, observed, digest, size) => PromoteEpochs(before, mp, path, observed, digest, size);
    }
  }
}
