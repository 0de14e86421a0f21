/** What is queued for ingestion, and by what: events exactly, scans exactly, promotions nothing. */
module Queues {
  import opened Common
  import opened Paths
  import opened Tables
  import opened Reconcile
  import opened Ledger
  import opened Scans
  import Identity

  /** An event queues one job when it is about the contents of a file this system indexes, and otherwise none:
      a created or modified file may still be written to, a closed or moved one has settled. */
  lemma EventQueues(cfg: Config, db: Db, ev: Event)
    ensures var mp := Resolve(cfg, ev.path);
            ApplyKind(cfg, db, ev).ingest
            == db.ingest
             + if !ev.isDir && mp.Some? && cfg.allow(ev.path) && !ev.kind.Attrib? && !ev.kind.Delete? && !ev.kind.Unknown?
               then multiset{IngestJob(mp.value, ev.path, if ev.kind.Create? || ev.kind.Modify? then Debounced else Settled)}
               else multiset{}
  {
    hide Resolve, ApplyDelete, ApplyMove, Observe, ObserveOnly;
    match ev.kind
    case Create => ObserveQueues(cfg, db, ev, Debounced);
    case Modify => ObserveQueues(cfg, db, ev, Debounced);
    case CloseWrite => ObserveQueues(cfg, db, ev, Settled);
    case Attrib => ObserveQueues(cfg, db, ev, Settled);
    case Delete => DeleteQueues(cfg, db, ev.path, ev.isDir);
    case Move => MoveEventQueues(cfg, db, ev);
    case Unknown =>
  }

  lemma MoveEventQueues(cfg: Config, db: Db, ev: Event)
    ensures var mp := Resolve(cfg, ev.path);
            ApplyMove(cfg, db, ev).ingest
            == db.ingest + if !ev.isDir && mp.Some? && cfg.allow(ev.path) then multiset{IngestJob(mp.value, ev.path, Settled)} else multiset{}
  {
    hide Resolve, ApplyDelete, MoveFile, MoveDirectory, Observe, ObserveOnly;
    DeleteQueues(cfg, db, ev.oldPath, ev.isDir);
    ObserveQueues(cfg, ApplyDelete(cfg, db, ev.oldPath, ev.isDir), ev, Settled);
    if Resolve(cfg, ev.path).Some? {
      MoveQueues(cfg, db, Resolve(cfg, ev.path).value, ev);
    }
  }

  lemma ObserveQueues(cfg: Config, db: Db, ev: Event, trigger: Trigger)
    ensures var mp := Resolve(cfg, ev.path);
            Observe(cfg, db, ev.path, ev.stat, ev.isDir, trigger).ingest
            == db.ingest + if !ev.isDir && mp.Some? && cfg.allow(ev.path) then multiset{IngestJob(mp.value, ev.path, trigger)} else multiset{}
    ensures ObserveOnly(cfg, db, ev.path, ev.stat, ev.isDir).ingest == db.ingest
  {
    hide Resolve, ObservationOf;
  }

  lemma DeleteQueues(cfg: Config, db: Db, path: Path, isDir: bool)
    ensures ApplyDelete(cfg, db, path, isDir).ingest == db.ingest
  {
    hide Owed;
  }

  lemma MoveQueues(cfg: Config, db: Db, mp: int, ev: Event)
    ensures MoveDirectory(db, mp, ev.oldPath, ev.path, ev.stat).ingest == db.ingest
    ensures MoveFile(cfg, db, mp, ev.oldPath, ev.path, ev.stat).ingest
         == db.ingest + if cfg.allow(ev.path) then multiset{IngestJob(mp, ev.path, Settled)} else multiset{}
  {
    hide Owed, DocsAt, DocsUnder, FindByPath;
  }

  // ---- scans ----

  /** The listing names a file this job could be for. */
  ghost predicate Lists(cfg: Config, stream: seq<Scanned>, j: IngestJob, i: int) {
    && 0 <= i < |stream| && stream[i].path == j.path && Resolve(cfg, j.path) == Some(j.mp)
    && !ListsDirectory(stream[i]) && cfg.allow(j.path) && j.trigger == Settled
  }

  lemma ListedQueues(cfg: Config, db: Db, o: Scanned, epoch: int, j: IngestJob)
    ensures ObserveScanned(cfg, db, o, epoch).ingest[j]
         == db.ingest[j] + if Lists(cfg, [o], j, 0) && !AccountedFor(db, Key(j.mp, j.path), o) then 1 else 0
  {
    DirectoryBit(o, epoch);
    hide HasDirBit, ToInt64;
    assert [o][0] == o;
    var k := Key(j.mp, j.path);
    assert DocsAt(db, k.mp, k.path) != {}
      <==> exists id :: id in db.docs && db.docs[id].live && db.docs[id].mp == k.mp && db.docs[id].path == k.path by {
      if id :| id in db.docs && db.docs[id].live && db.docs[id].mp == k.mp && db.docs[id].path == k.path {
        assert id in DocsAt(db, k.mp, k.path);
      }
      if id :| id in DocsAt(db, k.mp, k.path) {
        assert id in db.docs && db.docs[id].live && db.docs[id].mp == k.mp && db.docs[id].path == k.path;
      }
    }
  }

  lemma SameAccount(a: Db, b: Db, k: Key, o: Scanned)
    requires b.docs == a.docs && (k in b.obs <==> k in a.obs) && (k in a.obs ==> b.obs[k] == a.obs[k])
    ensures AccountedFor(b, k, o) <==> AccountedFor(a, k, o)
  {
  }

  /** The listing has a file the job is for, and the tables do not account for it. */
  ghost predicate Wants(cfg: Config, db: Db, stream: seq<Scanned>, j: IngestJob) {
    exists i :: Lists(cfg, stream, j, i) && !AccountedFor(db, Key(j.mp, j.path), stream[i])
  }

  lemma WantsLast(cfg: Config, db: Db, init: seq<Scanned>, last: Scanned, j: IngestJob)
    ensures Wants(cfg, db, init + [last], j) <==> Wants(cfg, db, init, j) || Wants(cfg, db, [last], j)
  {
    hide AccountedFor, ListsDirectory, Resolve;
    var stream := init + [last];
    if i :| Lists(cfg, stream, j, i) && !AccountedFor(db, Key(j.mp, j.path), stream[i]) {
      assert if i < |init| then Lists(cfg, init, j, i) else Lists(cfg, [last], j, 0);
    }
    if i :| Lists(cfg, init, j, i) && !AccountedFor(db, Key(j.mp, j.path), init[i]) {
      assert Lists(cfg, stream, j, i) && stream[i] == init[i];
    }
    if i :| Lists(cfg, [last], j, i) && !AccountedFor(db, Key(j.mp, j.path), [last][i]) {
      assert Lists(cfg, stream, j, |init|) && stream[|init|] == last;
    }
  }

  lemma WantsOne(cfg: Config, db: Db, o: Scanned, j: IngestJob)
    ensures Wants(cfg, db, [o], j) <==> Lists(cfg, [o], j, 0) && !AccountedFor(db, Key(j.mp, j.path), o)
  {
    hide AccountedFor, ListsDirectory, Resolve;
    if Lists(cfg, [o], j, 0) {
      assert [o][0] == o;
    }
  }

  lemma {:induction false} ListingQueues(cfg: Config, db: Db, stream: seq<Scanned>, epoch: int, j: IngestJob)
    requires Once(stream)
    ensures ObserveAll(cfg, db, stream, epoch).ingest[j] == db.ingest[j] + if Wants(cfg, db, stream, j) then 1 else 0
    decreases |stream|
  {
    hide Wants, AccountedFor, ObserveScanned, Resolve, ListsDirectory;
    if stream == [] {
      WantsNothing(cfg, db, j);
    } else {
      var init, last := stream[..|stream| - 1], stream[|stream| - 1];
      var before := ObserveAll(cfg, db, init, epoch);
      ListingQueues(cfg, db, init, epoch, j);
      ListedQueues(cfg, before, last, epoch, j);
      assert stream == init + [last];
      WantsLast(cfg, db, init, last, j);
      WantsOne(cfg, db, last, j);
      if last.path == j.path {
        UnlistedRow(cfg, db, init, epoch, Key(j.mp, j.path));
        ObserveAllTouchesNoDocument(cfg, db, init, epoch);
        SameAccount(db, before, Key(j.mp, j.path), last);
        WantsUnlisted(cfg, db, init, j);
      }
    }
  }

  lemma WantsNothing(cfg: Config, db: Db, j: IngestJob)
    ensures !Wants(cfg, db, [], j)
  {
  }

  lemma WantsUnlisted(cfg: Config, db: Db, stream: seq<Scanned>, j: IngestJob)
    requires forall i :: 0 <= i < |stream| ==> stream[i].path != j.path
    ensures !Wants(cfg, db, stream, j)
  {
  }

  /** A scan queues a job once, if the walk lists a file it is for that the tables do not account for, and
      otherwise not at all. */
  lemma ScanQueuesExactly(cfg: Config, db: Db, m: Mountpoint, stream: seq<Scanned>, j: IngestJob)
    requires Once(stream)
    ensures ReconcileRoot(cfg, db, m, stream).ingest[j] == db.ingest[j] + if Wants(cfg, db, stream, j) then 1 else 0
  {
    var begun := NextScanEpoch(db);
    ListingQueues(cfg, begun, stream, begun.epoch, j);
    forall o ensures AccountedFor(begun, Key(j.mp, j.path), o) <==> AccountedFor(db, Key(j.mp, j.path), o) {
      SameAccount(db, begun, Key(j.mp, j.path), o);
    }
    hide Owed, ObserveAll, AccountedFor, Lists;
  }

  // ---- runs ----

  /** A job names an allowed path, under the root it resolves to. */
  predicate Proper(cfg: Config, j: IngestJob) {
    cfg.allow(j.path) && Resolve(cfg, j.path) == Some(j.mp)
  }

  /** b has the jobs a had, and beside them proper ones only. */
  ghost predicate AddsProper(cfg: Config, a: Db, b: Db) {
    a.ingest <= b.ingest && forall j :: b.ingest[j] > a.ingest[j] ==> Proper(cfg, j)
  }

  lemma AddsTrans(cfg: Config, a: Db, b: Db, c: Db)
    requires AddsProper(cfg, a, b) && AddsProper(cfg, b, c)
    ensures AddsProper(cfg, a, c)
  {
    hide Proper;
    forall j | c.ingest[j] > a.ingest[j] ensures Proper(cfg, j) {
      assert b.ingest[j] > a.ingest[j] || c.ingest[j] > b.ingest[j];
    }
  }

  lemma {:induction false} ListingAddsProper(cfg: Config, db: Db, stream: seq<Scanned>, epoch: int)
    ensures AddsProper(cfg, db, ObserveAll(cfg, db, stream, epoch))
    decreases |stream|
  {
    hide ObserveScanned, Proper, AddsProper;
    if stream == [] {
      SameIngest(cfg, db, db);
    } else {
      var init, last := stream[..|stream| - 1], stream[|stream| - 1];
      var before := ObserveAll(cfg, db, init, epoch);
      ListingAddsProper(cfg, db, init, epoch);
      OneAddsProper(cfg, before, last, epoch);
      AddsTrans(cfg, db, before, ObserveAll(cfg, db, stream, epoch));
    }
  }

  lemma OneAddsProper(cfg: Config, db: Db, o: Scanned, epoch: int)
    ensures AddsProper(cfg, db, ObserveScanned(cfg, db, o, epoch))
  {
    hide AccountedFor, ListsDirectory, Resolve, ObserveScanned;
    var after := ObserveScanned(cfg, db, o, epoch);
    forall j ensures db.ingest[j] <= after.ingest[j] && (after.ingest[j] > db.ingest[j] ==> Proper(cfg, j)) {
      ListedQueues(cfg, db, o, epoch, j);
    }
  }

  lemma SameIngest(cfg: Config, a: Db, b: Db)
    requires b.ingest == a.ingest
    ensures AddsProper(cfg, a, b)
  {
  }

  lemma StepAddsProper(cfg: Config, db: Db, step: Step)
    ensures AddsProper(cfg, db, After(cfg, db, step))
  {
    hide ApplyKind, ObserveAll, Promote, Resolve, Owed, DocsAtAny;
    match step {
      case Applied(ev) => EventQueues(cfg, db, ev);
      case Rescanned(m, stream) =>
        var begun := NextScanEpoch(db);
        ListingAddsProper(cfg, begun, stream, begun.epoch);
      case Abandoned =>
      case Marked(at) =>
      case Promoted(mp, path, observed, digest, size) => PromoteQueuesNothing(db, mp, path, observed, digest, size);
    }
  }

  lemma PromoteQueuesNothing(db: Db, mp: int, path: Path, observed: Observation, digest: string, size: int)
    ensures Promote(db, mp, path, observed, digest, size).ingest == db.ingest
  {
    hide ResolveDocument, SameFile;
    var k := Key(mp, path);
    if k in db.obs && !db.obs[k].isDir && SameFile(observed, db.obs[k]) {
      Identity.PromoteKeepsPlaces(db, mp, path, observed, digest, size);
      Identity.ResolveKeepsIngest(db, mp, path, db.obs[k], digest);
      hide Promote;
    }
  }

  /** Over any run nothing queued is lost, and every job added names a path the filter allows, under the root
      it resolves to. */
  lemma {:induction false} RunQueuesAllowed(cfg: Config, db: Db, steps: seq<Step>)
    ensures AddsProper(cfg, db, Run(cfg, db, steps))
    decreases |steps|
  {
    hide After, AddsProper, Proper;
    if steps == [] {
      SameIngest(cfg, db, db);
    } else {
      var before := Run(cfg, db, steps[..|steps| - 1]);
      RunQueuesAllowed(cfg, db, steps[..|steps| - 1]);
      StepAddsProper(cfg, before, steps[|steps| - 1]);
      AddsTrans(cfg, db, before, Run(cfg, db, steps));
    }
  }
}
