/** The Reconciler and the Processor as they run: a sequence of statements on one store. */
module Reconcilers {
  import opened Common
  import opened Paths
  import opened Tables
  import R = Reconcile
  import opened Stores
  import opened Ledger
  import opened LivePaths
  import Replay

  lemma OwedAfterWithdraw(db: Db, a: set<nat>, b: set<nat>)
    requires a !! b
    ensures Owed(Withdraw(db, a), b) == Owed(db, b)
  {
    var once := Withdraw(db, a);
    forall j ensures j in Owed(once, b) <==> j in Owed(db, b) {
      assert j.doc in b ==> j.doc !in a;
    }
  }

  lemma OwedUnion(db: Db, a: set<nat>, b: set<nat>)
    requires a !! b
    ensures multiset(Owed(db, a + b)) == multiset(Owed(db, a)) + multiset(Owed(db, b))
  {
    forall j ensures j in Owed(db, a + b) <==> j in Owed(db, a) || j in Owed(db, b) {
      assert j.doc in a + b <==> j.doc in a || j.doc in b;
    }
    assert Owed(db, a + b) == Owed(db, a) + Owed(db, b);
  }

  /** Withdrawing twice is withdrawing once, when the two sets share nothing. */
  lemma WithdrawTwice(db: Db, a: set<nat>, b: set<nat>)
    requires a !! b
    ensures Withdraw(Withdraw(db, a), b) == Withdraw(db, a + b)
  {
    hide Owed;
    OwedAfterWithdraw(db, a, b);
    OwedUnion(db, a, b);
    assert Withdraw(Withdraw(db, a), b).docs == Withdraw(db, a + b).docs;
  }

  lemma WithdrawNothing(db: Db)
    ensures Withdraw(db, {}) == db
  {
    assert Owed(db, {}) == {};
    assert Withdraw(db, {}).docs == db.docs;
  }

  /** Tombstoning one document and requesting its invalidation is withdrawing it. */
  lemma WithdrawOne(db: Db, id: nat)
    requires id in db.docs
    ensures Withdraw(db, {id})
         == if db.docs[id].version == 0 then Tombstone(db, {id})
            else EnqueueInvalidate(Tombstone(db, {id}), Invalidation(id, db.docs[id].version))
  {
    OwedPlusOne(db, {}, id);
    assert {} + {id} == {id};
    assert Owed(db, {}) == {};
  }

  /** Withdrawing what stood at one more path, path by path. */
  lemma WithdrawNextPath(db: Db, mp: int, paths: set<Path>, p: Path)
    requires p !in paths
    ensures var so_far := Withdraw(db, R.DocsAtAny(db, mp, paths));
            Withdraw(so_far, DocsAt(so_far, mp, p)) == Withdraw(db, R.DocsAtAny(db, mp, paths + {p}))
  {
    var ids := R.DocsAtAny(db, mp, paths);
    var soFar := Withdraw(db, ids);
    assert DocsAt(soFar, mp, p) == DocsAt(db, mp, p) by {
      forall id ensures id in DocsAt(soFar, mp, p) <==> id in DocsAt(db, mp, p) {
        assert id in DocsAt(db, mp, p) ==> id !in ids;
      }
    }
    assert ids + DocsAt(db, mp, p) == R.DocsAtAny(db, mp, paths + {p});
    WithdrawTwice(db, ids, DocsAt(db, mp, p));
  }

  lemma NowhereToWithdraw(db: Db, mp: int)
    ensures Withdraw(db, R.DocsAtAny(db, mp, {})) == db
  {
    assert R.DocsAtAny(db, mp, {}) == {};
    WithdrawNothing(db);
  }

  lemma SweepDrawsNothing(db: Db, m: Mountpoint, epoch: int)
    ensures var after := R.SweepRoot(db, m.id, m.root, epoch);
            after.epoch == db.epoch && after.nextDoc == db.nextDoc && after.nextVersion == db.nextVersion
  {
    hide Owed, R.DocsAtAny, Gone;
  }

  class Reconciler {
    const cfg: R.Config
    const tx: Store

    constructor (cfg: R.Config, tx: Store)
      ensures this.cfg == cfg && this.tx == tx
    {
      this.cfg, this.tx := cfg, tx;
    }

    method Lookup(path: Path) returns (mp: int, ok: bool)
      ensures R.Resolve(cfg, path) == if ok then Some(mp) else None
    {
      var m, found := MountpointFor(cfg.mountpoints, path);
      mp, ok := m.id, found;
    }

    /** Nothing is requested for a document that never had a version. */
    method Invalidate(doc: nat, version: nat)
      modifies tx`db
      ensures tx.db == if version == 0 then old(tx.db) else EnqueueInvalidate(old(tx.db), Invalidation(doc, version))
    {
      if version != 0 {
        tx.EnqueueInvalidateThumbnails(doc, version);
      }
    }

    method InvalidateAll(rows: seq<Row>, ghost was: Db)
      requires forall i :: 0 <= i < |rows| ==> rows[i].id in was.docs && rows[i].version == was.docs[rows[i].id].version
      requires forall i, j :: 0 <= i < j < |rows| ==> rows[i].id != rows[j].id
      modifies tx`db
      ensures tx.db == old(tx.db).(
                invalidate := old(tx.db).invalidate + multiset(Owed(was, set i | 0 <= i < |rows| :: rows[i].id)))
    {
      ghost var before := tx.db;
      ghost var done: set<nat> := {};
      var i := 0;
      assert Owed(was, {}) == {};
      while i < |rows|
        invariant 0 <= i <= |rows|
        invariant done == set j | 0 <= j < i :: rows[j].id
        invariant tx.db == before.(invalidate := before.invalidate + multiset(Owed(was, done)))
      {
        OwedPlusOne(was, done, rows[i].id);
        Invalidate(rows[i].id, rows[i].version);
        done := done + {rows[i].id};
        i := i + 1;
      }
    }

    /** Tombstone a subtree's documents and request what each owes. */
    method WithdrawSubtree(mp: int, prefix: Path)
      modifies tx`db
      ensures tx.db == Withdraw(old(tx.db), DocsUnder(old(tx.db), mp, prefix))
    {
      hide DocsUnder, Owed, Listing;
      ghost var was := tx.db;
      var rows := tx.TombstoneDocumentSubtree(mp, prefix);
      InvalidateAll(rows, was);
      RowsListed(rows, DocsUnder(was, mp, prefix));
    }

    /** Tombstone whatever stands at one path and request what it owes. */
    method WithdrawPath(mp: int, path: Path)
      requires UniqueLive(tx.db)
      modifies tx`db
      ensures tx.db == Withdraw(old(tx.db), DocsAt(old(tx.db), mp, path))
    {
      ghost var was := tx.db;
      var id, version, found := tx.TombstoneDocumentByPath(mp, path);
      if found {
        WithdrawOne(was, id);
        Invalidate(id, version);
      } else {
        WithdrawNothing(was);
        assert Tombstone(was, {}).docs == was.docs;
      }
    }

    method ObserveOnly(path: Path, stat: Option<R.Stat>, isDir: bool)
      modifies tx`db
      ensures tx.db == R.ObserveOnly(cfg, old(tx.db), path, stat, isDir)
    {
      var mp, ok := Lookup(path);
      if ok {
        tx.UpsertObservation(Key(mp, path), R.ObservationOf(stat, isDir, 0));
      }
    }

    method Observe(path: Path, stat: Option<R.Stat>, isDir: bool, trigger: Trigger)
      modifies tx`db
      ensures tx.db == R.Observe(cfg, old(tx.db), path, stat, isDir, trigger)
    {
      var mp, ok := Lookup(path);
      if !ok {
        return;
      }
      ObserveOnly(path, stat, isDir);
      if isDir || !cfg.allow(path) {
        return;
      }
      tx.EnqueueIngestPath(mp, path, trigger);
    }

    method ApplyDelete(path: Path, isDir: bool)
      requires UniqueLive(tx.db)
      modifies tx`db
      ensures tx.db == R.ApplyDelete(cfg, old(tx.db), path, isDir)
    {
      var mp, ok := Lookup(path);
      if !ok {
        return;
      }
      ghost var was := tx.db;
      tx.DeleteObservation(Key(mp, path));
      SameDocsUnique(was, tx.db);
      if isDir {
        tx.DeleteObservationSubtree(mp, SubtreePrefix(path));
        WithdrawSubtree(mp, SubtreePrefix(path));
      } else {
        WithdrawPath(mp, path);
      }
    }

    method MoveFile(mp: int, oldPath: Path, newPath: Path, stat: Option<R.Stat>)
      requires UniqueLive(tx.db)
      modifies tx`db
      ensures tx.db == R.MoveFile(cfg, old(tx.db), mp, oldPath, newPath, stat)
    {
      ghost var was := tx.db;
      // The source's row goes first: a content lookup ignores documents whose own path still exists.
      tx.DeleteObservation(Key(mp, oldPath));
      tx.UpsertObservation(Key(mp, newPath), R.ObservationOf(stat, false, 0));
      ghost var d2 := tx.db;
      SameDocsUnique(was, d2);
      var moved, movedFound := tx.FindLiveDocumentByPath(mp, oldPath);
      if movedFound {
        assert LiveAt(d2, moved, mp, oldPath);
        var existing, existingFound := tx.FindLiveDocumentByPath(mp, newPath);
        if existingFound {
          assert LiveAt(d2, existing, mp, newPath);
          UniqueAt(d2, existing, mp, newPath);
        }
        if existingFound && existing != moved {
          assert DocsAt(d2, mp, newPath) - {moved} == {existing};
          WithdrawOne(d2, existing);
          var version := tx.db.docs[existing].version;
          tx.TombstoneDocument(existing);
          Invalidate(existing, version);
        } else {
          assert DocsAt(d2, mp, newPath) - {moved} == {};
          WithdrawNothing(d2);
        }
        ghost var d3 := tx.db;
        assert d3 == Withdraw(d2, DocsAt(d2, mp, newPath) - {moved});
        WithdrawUnique(d2, DocsAt(d2, mp, newPath) - {moved});
        if !cfg.allow(newPath) {
          WithdrawOne(d3, moved);
          var version := tx.db.docs[moved].version;
          tx.TombstoneDocument(moved);
          Invalidate(moved, version);
          return;
        }
        forall j | LiveAt(d3, j, mp, newPath) ensures j == moved {
          assert LiveAt(d2, j, mp, newPath);
        }
        MoveUnique(d3, moved, newPath, R.StatDev(stat), R.StatIno(stat));
        tx.MoveDocument(moved, newPath, R.StatDev(stat), R.StatIno(stat));
      }
      if cfg.allow(newPath) {
        tx.EnqueueIngestPath(mp, newPath, Settled);
      }
    }

    method MoveDirectory(mp: int, oldPath: Path, newPath: Path, stat: Option<R.Stat>)
      requires UniqueLive(tx.db)
      modifies tx`db
      ensures tx.db == R.MoveDirectory(old(tx.db), mp, oldPath, newPath, stat)
    {
      ghost var was := tx.db;
      var oldPrefix, newPrefix := SubtreePrefix(oldPath), SubtreePrefix(newPath);
      tx.DeleteObservation(Key(mp, newPath));
      tx.DeleteObservationSubtree(mp, newPrefix);
      WithdrawSubtree(mp, newPrefix);
      ghost var d1 := tx.db;
      assert d1 == R.ClearDestination(was, mp, newPath);
      hide R.ClearDestination, Tables.MoveObservationSubtree, Tables.MoveDocumentSubtree, UniqueLive, ObservationsFree, DocumentsFree;
      ClearedDestination(was, mp, newPath);
      ClearedObservationsFree(d1, mp, oldPrefix, newPrefix);
      tx.MoveObservationSubtree(mp, oldPrefix, newPrefix);
      MoveObservationKeepsDocs(d1, mp, oldPrefix, newPrefix);
      tx.DeleteObservation(Key(mp, oldPath));
      tx.UpsertObservation(Key(mp, newPath), R.ObservationOf(stat, true, 0));
      SameDocsUnique(d1, tx.db);
      SubtreeMoveUnique(tx.db, mp, oldPrefix, newPrefix);
      tx.MoveDocumentSubtree(mp, oldPrefix, newPrefix);
    }

    method ApplyMove(ev: R.Event)
      requires UniqueLive(tx.db)
      modifies tx`db
      ensures tx.db == R.ApplyMove(cfg, old(tx.db), ev)
    {
      hide R.ApplyDelete, R.Observe, R.MoveFile, R.MoveDirectory, UniqueLive;
      var oldMP, oldOK := Lookup(ev.oldPath);
      var newMP, newOK := Lookup(ev.path);
      DeleteAbsent(cfg, tx.db, ev.oldPath, ev.isDir);
      if oldOK && !newOK {
        ApplyDelete(ev.oldPath, ev.isDir);
        ObserveAbsent(cfg, tx.db, ev.path, ev.stat, ev.isDir, Settled);
        return;
      }
      if !oldOK && newOK {
        Observe(ev.path, ev.stat, ev.isDir, Settled);
        return;
      }
      if !oldOK || oldMP != newMP {
        if oldOK {
          ApplyDelete(ev.oldPath, ev.isDir);
        }
        if newOK {
          Observe(ev.path, ev.stat, ev.isDir, Settled);
        } else {
          ObserveAbsent(cfg, tx.db, ev.path, ev.stat, ev.isDir, Settled);
        }
        return;
      }
      if ev.isDir {
        MoveDirectory(newMP, ev.oldPath, ev.path, ev.stat);
      } else {
        MoveFile(newMP, ev.oldPath, ev.path, ev.stat);
      }
    }

    method ApplyKind(ev: R.Event)
      requires UniqueLive(tx.db)
      modifies tx`db
      ensures tx.db == R.ApplyKind(cfg, old(tx.db), ev)
    {
      hide R.ApplyDelete, R.Observe, R.ObserveOnly, R.ApplyMove, UniqueLive;
      match ev.kind
      case Create => Observe(ev.path, ev.stat, ev.isDir, Debounced);
      case Modify => Observe(ev.path, ev.stat, ev.isDir, Debounced);
      case CloseWrite => Observe(ev.path, ev.stat, ev.isDir, Settled);
      case Attrib => ObserveOnly(ev.path, ev.stat, ev.isDir);
      case Delete => ApplyDelete(ev.path, ev.isDir);
      case Move => ApplyMove(ev);
      case Unknown =>
    }

    /** One transaction. commits is what the database says at the end of it: an aborted one leaves no trace. */
    method ApplyEvent(ev: R.Event, commits: bool)
      requires UniqueLive(tx.db)
      modifies tx
      ensures commits ==> tx.db == R.ApplyEvent(cfg, old(tx.db), ev)
      ensures !commits ==> tx.db == old(tx.db)
      ensures UniqueLive(tx.db)
    {
      hide R.ApplyKind, UniqueLive;
      EventUnique(cfg, tx.db, ev);
      Replay.KindKeepsWatermark(cfg, tx.db, ev);
      KindSheds(cfg, tx.db, ev);
      tx.Begin();
      var num := ToInt64(ev.num);
      if num > tx.db.watermark {
        ApplyKind(ev);
        tx.SetWatermark(num);
      }
      if !commits {
        tx.Rollback();
      }
    }

    method ObserveScanned(o: R.Scanned, epoch: int) returns (queued: bool)
      modifies tx`db
      ensures tx.db == R.ObserveScanned(cfg, old(tx.db), o, epoch)
      ensures queued <==> tx.db.ingest != old(tx.db).ingest
    {
      var mp, ok := Lookup(o.path);
      if !ok {
        return false;
      }
      var k := Key(mp, o.path);
      var next := R.ScannedObservation(o, epoch);
      var hadPrior := k in tx.db.obs;
      var prior := if hadPrior then tx.db.obs[k] else next;
      tx.UpsertObservation(k, next);
      if next.isDir || !cfg.allow(o.path) {
        return false;
      }
      var changed := !hadPrior || prior.size != next.size || prior.mtime != next.mtime;
      if !changed {
        var doc, hasDoc := tx.FindLiveDocumentByPath(mp, o.path);
        assert DocsAt(tx.db, mp, o.path) == DocsAt(old(tx.db), mp, o.path);
        if hasDoc {
          return false;
        }
      }
      tx.EnqueueIngestPath(mp, o.path, Settled);
      assert tx.db.ingest[IngestJob(mp, o.path, Settled)] == old(tx.db).ingest[IngestJob(mp, o.path, Settled)] + 1;
      return true;
    }

    /** The walk's batches, path by path. */
    method ObserveStream(stream: seq<R.Scanned>, epoch: int) returns (observed: nat, queued: nat)
      modifies tx`db
      ensures tx.db == R.ObserveAll(cfg, old(tx.db), stream, epoch)
      ensures observed == |stream| && queued == R.QueuedCount(cfg, old(tx.db), stream, epoch)
    {
      hide R.ObserveScanned;
      ghost var started := tx.db;
      observed, queued := 0, 0;
      while observed < |stream|
        invariant 0 <= observed <= |stream|
        invariant tx.db == R.ObserveAll(cfg, started, stream[..observed], epoch)
        invariant queued == R.QueuedCount(cfg, started, stream[..observed], epoch)
      {
        assert stream[..observed + 1][..observed] == stream[..observed];
        var enqueued := ObserveScanned(stream[observed], epoch);
        observed := observed + 1;
        if enqueued {
          queued := queued + 1;
        }
      }
      assert stream[..observed] == stream;
    }

    /** The sweep, and the withdrawal of whatever stood at each path it returned. */
    method SweepAndWithdraw(m: Mountpoint, epoch: int) returns (swept: nat)
      requires UniqueLive(tx.db)
      modifies tx`db
      ensures tx.db == R.SweepRoot(old(tx.db), m.id, m.root, epoch)
      ensures swept == |Gone(old(tx.db), m.id, m.root, epoch)|
    {
      hide UniqueLive, Withdraw, R.DocsAtAny;
      ghost var seen := tx.db;
      var gone := tx.SweepScanEpoch(m.id, m.root, epoch);
      ghost var bare := tx.db;
      SameDocsUnique(seen, bare);
      ghost var paths: set<Path> := {};
      swept := |gone|;
      var i := 0;
      NowhereToWithdraw(bare, m.id);
      while i < |gone|
        invariant 0 <= i <= |gone| && |paths| == i
        invariant paths == set j | 0 <= j < i :: gone[j]
        invariant tx.db == Withdraw(bare, R.DocsAtAny(bare, m.id, paths))
      {
        WithdrawUnique(bare, R.DocsAtAny(bare, m.id, paths));
        WithdrawNextPath(bare, m.id, paths, gone[i]);
        WithdrawPath(m.id, gone[i]);
        paths := paths + {gone[i]};
        i := i + 1;
      }
      assert paths == Gone(seen, m.id, m.root, epoch);
    }

    /** One root's walk, committed as a single mark-and-sweep epoch. The counts are what it logs. */
    method ReconcileRoot(m: Mountpoint, stream: seq<R.Scanned>, commits: bool)
      returns (observed: nat, queued: nat, swept: nat)
      requires UniqueLive(tx.db)
      modifies tx
      ensures commits ==> tx.db == R.ReconcileRoot(cfg, old(tx.db), m, stream)
      ensures !commits ==> tx.db == NextScanEpoch(old(tx.db))
      ensures UniqueLive(tx.db)
      ensures observed == |stream|
      ensures queued == R.QueuedCount(cfg, NextScanEpoch(old(tx.db)), stream, old(tx.db).epoch + 1)
      ensures var begun := NextScanEpoch(old(tx.db));
              swept == |Gone(R.ObserveAll(cfg, begun, stream, begun.epoch), m.id, m.root, begun.epoch)|
    {
      hide UniqueLive, R.SweepRoot, R.ObserveAll, R.QueuedCount, Gone;
      ghost var was := tx.db;
      ScanUnique(cfg, was, m, stream);
      tx.Begin();
      var epoch := tx.NextScanEpoch();
      ObserveAllTouchesNoDocument(cfg, tx.db, stream, epoch);
      observed, queued := ObserveStream(stream, epoch);
      SameDocsUnique(was, tx.db);
      SweepDrawsNothing(tx.db, m, epoch);
      swept := SweepAndWithdraw(m, epoch);
      if !commits {
        tx.Rollback();
        SameDocsUnique(was, tx.db);
      }
    }

    /** Rescan every root, then commit the ring head once. A failure at root `broken` leaves the roots before
        it reconciled and the watermark as it was. */
    method ReconcileAll(streams: seq<seq<R.Scanned>>, head: int, broken: Option<nat>) returns (ok: bool)
      requires UniqueLive(tx.db) && |streams| == |cfg.mountpoints|
      modifies tx
      ensures ok <==> broken.None? || broken.value >= |streams|
      ensures ok ==> tx.db == Tables.SetWatermark(R.ReconcileRoots(cfg, old(tx.db), streams, |streams|), head)
      ensures !ok ==> tx.db == NextScanEpoch(R.ReconcileRoots(cfg, old(tx.db), streams, broken.value))
      ensures UniqueLive(tx.db)
    {
      ok := ReconcileEach(streams, if broken.Some? then broken.value else |streams|);
      if ok {
        MarkUnique(tx.db, head);
        tx.SetWatermark(head);
      }
    }

    /** One turn of the loop; the counts are only logged. */
    method ReconcileNth(streams: seq<seq<R.Scanned>>, i: nat, commits: bool)
      requires UniqueLive(tx.db) && i < |streams| == |cfg.mountpoints|
      modifies tx
      ensures commits ==> tx.db == R.ReconcileRoot(cfg, old(tx.db), cfg.mountpoints[i], streams[i])
      ensures !commits ==> tx.db == NextScanEpoch(old(tx.db))
      ensures UniqueLive(tx.db)
    {
      var observed, queued, swept := ReconcileRoot(cfg.mountpoints[i], streams[i], commits);
    }

    /** The loop over the roots, which the first failure leaves. */
    method ReconcileEach(streams: seq<seq<R.Scanned>>, broken: nat) returns (ok: bool)
      requires UniqueLive(tx.db) && |streams| == |cfg.mountpoints|
      modifies tx
      ensures ok <==> broken >= |streams|
      ensures ok ==> tx.db == R.ReconcileRoots(cfg, old(tx.db), streams, |streams|)
      ensures !ok ==> tx.db == NextScanEpoch(R.ReconcileRoots(cfg, old(tx.db), streams, broken))
      ensures UniqueLive(tx.db)
    {
      hide R.ReconcileRoots, R.ReconcileRoot, UniqueLive, NextScanEpoch;
      ghost var was := tx.db;
      NextRoot(cfg, was, streams, 0);
      var i := 0;
      while i < |streams|
        invariant 0 <= i <= |streams| && i <= broken
        invariant tx.db == R.ReconcileRoots(cfg, was, streams, i)
        invariant UniqueLive(tx.db)
      {
        NextRoot(cfg, was, streams, i);
        ReconcileNth(streams, i, i != broken);
        if i == broken {
          return false;
        }
        i := i + 1;
      }
      return true;
    }

    /** The write half of ProcessPath, in one transaction no other writer interleaves with. */
    method Promote(mp: int, path: Path, observed: Observation, digest: string, size: int) returns (settled: bool)
      requires UniqueLive(tx.db) && FreshIds(tx.db)
      modifies tx`db
      ensures settled && tx.db == R.Promote(old(tx.db), mp, path, observed, digest, size)
      ensures UniqueLive(tx.db)
    {
      ghost var was := tx.db;
      hide UniqueLive, FindByPath, FindByInode, FindByContent;
      PromoteUnique(was, mp, path, observed, digest, size);
      var k := Key(mp, path);
      if k !in tx.db.obs || tx.db.obs[k].isDir || !R.SameFile(observed, tx.db.obs[k]) {
        return true;
      }
      var doc := ResolveDocument(mp, path, tx.db.obs[k], digest);
      hide R.ResolveDocument;
      var superseded := tx.db.docs[doc].version;
      var version := tx.UpsertContentVersion(digest, size);
      if superseded == version {
        return true;
      }
      var swapped := tx.SetDocumentCurrentVersion(doc, superseded, version);
      tx.MarkExtractionPending(version);
      tx.EnqueueExtractJob(version);
      if superseded != 0 {
        tx.EnqueueInvalidateThumbnails(doc, superseded);
      }
      return true;
    }

    method ResolveDocument(mp: int, path: Path, o: Observation, digest: string) returns (doc: nat)
      requires UniqueLive(tx.db) && FreshIds(tx.db)
      modifies tx`db
      ensures (tx.db, doc) == R.ResolveDocument(old(tx.db), mp, path, o, digest)
      ensures doc in tx.db.docs
    {
      ghost var was := tx.db;
      ResolveUnique(was, mp, path, o, digest);
      hide UniqueLive;
      var found;
      doc, found := tx.FindLiveDocumentByPath(mp, path);
      if found {
        if tx.db.docs[doc].dev != o.dev || tx.db.docs[doc].ino != o.ino {
          tx.MoveDocument(doc, path, o.dev, o.ino);
        }
        return;
      }
      if o.ino != 0 {
        doc, found := tx.FindLiveDocumentByInode(mp, o.dev, o.ino);
        if found {
          tx.MoveDocument(doc, path, o.dev, o.ino);
          return;
        }
      }
      doc, found := tx.FindLiveDocumentByContent(mp, digest);
      if found {
        tx.MoveDocument(doc, path, o.dev, o.ino);
        return;
      }
      doc := tx.CreateDocument(mp, path, o.dev, o.ino);
    }
  }

  lemma MarkUnique(db: Db, at: int)
    requires UniqueLive(db)
    ensures UniqueLive(Tables.SetWatermark(db, at))
  {
    SameDocsUnique(db, Tables.SetWatermark(db, at));
  }

  lemma RowsListed(rows: seq<Row>, ids: set<nat>)
    requires |rows| == |Listing(ids)| && forall i :: 0 <= i < |rows| ==> rows[i].id == Listing(ids)[i]
    ensures (set i | 0 <= i < |rows| :: rows[i].id) == ids
  {
    forall id | id in ids ensures id in set i | 0 <= i < |rows| :: rows[i].id {
      var i :| 0 <= i < |rows| && Listing(ids)[i] == id;
      assert rows[i].id == id;
    }
  }

  lemma NextRoot(cfg: R.Config, db: Db, streams: seq<seq<R.Scanned>>, i: nat)
    requires i <= |streams| == |cfg.mountpoints|
    ensures R.ReconcileRoots(cfg, db, streams, 0) == db
    ensures i == |streams| || R.ReconcileRoots(cfg, db, streams, i + 1)
                           == R.ReconcileRoot(cfg, R.ReconcileRoots(cfg, db, streams, i), cfg.mountpoints[i], streams[i])
  {
  }

  lemma DeleteAbsent(cfg: R.Config, db: Db, path: Path, isDir: bool)
    ensures R.Resolve(cfg, path).None? ==> R.ApplyDelete(cfg, db, path, isDir) == db
  {
  }

  lemma ObserveAbsent(cfg: R.Config, db: Db, path: Path, stat: Option<R.Stat>, isDir: bool, trigger: Trigger)
    requires R.Resolve(cfg, path).None?
    ensures R.Observe(cfg, db, path, stat, isDir, trigger) == db
  {
  }
}
