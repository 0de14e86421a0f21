/** What one event, one scan and one promotion do to the ingest tables: the specification the
    Reconciler and Processor methods are proved against. */
module Reconcile {
  import opened Common
  import opened Paths
  import opened Tables

  /** The watched roots and the include filter; the filter's string rules are not modelled. */
  datatype Config = Config(mountpoints: seq<Mountpoint>, allow: Path -> bool)

  /** A stat as the wire carries it, unsigned. */
  datatype Stat = Stat(size: nat, mode: nat, ino: nat, dev: nat, mtime: int)

  datatype Kind = Create | Modify | CloseWrite | Attrib | Delete | Move | Unknown

  datatype Event = Event(num: nat, kind: Kind, path: Path, oldPath: Path, isDir: bool, stat: Option<Stat>)

  /** One scanned path. */
  datatype Scanned = Scanned(path: Path, stat: Option<Stat>)

  function Resolve(cfg: Config, path: Path): Option<int> {
    match Deepest(cfg.mountpoints, path)
    case None => None
    case Some(m) => Some(m.id)
  }

  function ObservationOf(stat: Option<Stat>, isDir: bool, epoch: int): Observation {
    match stat
    case None => Observation(0, 0, 0, 0, 0, isDir, epoch)
    case Some(s) => Observation(ToInt64(s.size), ToInt64(s.mode), s.mtime, ToInt64(s.ino), ToInt64(s.dev), isDir, epoch)
  }

  function StatDev(stat: Option<Stat>): int {
    if stat.Some? then ToInt64(stat.value.dev) else 0
  }

  function StatIno(stat: Option<Stat>): int {
    if stat.Some? then ToInt64(stat.value.ino) else 0
  }

  // ---- events ----

  function ObserveOnly(cfg: Config, db: Db, path: Path, stat: Option<Stat>, isDir: bool): Db {
    match Resolve(cfg, path)
    case None => db
    case Some(mp) => UpsertObservation(db, Key(mp, path), ObservationOf(stat, isDir, 0))
  }

  function Observe(cfg: Config, db: Db, path: Path, stat: Option<Stat>, isDir: bool, trigger: Trigger): Db {
    match Resolve(cfg, path)
    case None => db
    case Some(mp) =>
      var seen := ObserveOnly(cfg, db, path, stat, isDir);
      if isDir || !cfg.allow(path) then seen else EnqueueIngest(seen, IngestJob(mp, path, trigger))
  }

  function ApplyDelete(cfg: Config, db: Db, path: Path, isDir: bool): Db {
    match Resolve(cfg, path)
    case None => db
    case Some(mp) =>
      var rowless := DeleteObservation(db, Key(mp, path));
      if isDir then
        var bare := DeleteObservationSubtree(rowless, mp, SubtreePrefix(path));
        Withdraw(bare, DocsUnder(bare, mp, SubtreePrefix(path)))
      else
        Withdraw(rowless, DocsAt(rowless, mp, path))
  }

  function MoveFile(cfg: Config, db: Db, mp: int, oldPath: Path, newPath: Path, stat: Option<Stat>): Db {
    var d1 := DeleteObservation(db, Key(mp, oldPath));
    var d2 := UpsertObservation(d1, Key(mp, newPath), ObservationOf(stat, false, 0));
    match FindByPath(d2, mp, oldPath)
    case None =>
      if cfg.allow(newPath) then EnqueueIngest(d2, IngestJob(mp, newPath, Settled)) else d2
    case Some(moved) =>
      var d3 := Withdraw(d2, DocsAt(d2, mp, newPath) - {moved});
      if !cfg.allow(newPath) then Withdraw(d3, {moved})
      else EnqueueIngest(MoveDocument(d3, moved, newPath, StatDev(stat), StatIno(stat)), IngestJob(mp, newPath, Settled))
  }

  /** The half of a directory rename that clears the destination. */
  function ClearDestination(db: Db, mp: int, newPath: Path): Db {
    var d1 := DeleteObservation(db, Key(mp, newPath));
    var d2 := DeleteObservationSubtree(d1, mp, SubtreePrefix(newPath));
    Withdraw(d2, DocsUnder(d2, mp, SubtreePrefix(newPath)))
  }

  function MoveDirectory(db: Db, mp: int, oldPath: Path, newPath: Path, stat: Option<Stat>): Db {
    var oldPrefix, newPrefix := SubtreePrefix(oldPath), SubtreePrefix(newPath);
    var d1 := ClearDestination(db, mp, newPath);
    var d2 := MoveObservationSubtree(d1, mp, oldPrefix, newPrefix);
    var d3 := DeleteObservation(d2, Key(mp, oldPath));
    var d4 := UpsertObservation(d3, Key(mp, newPath), ObservationOf(stat, true, 0));
    MoveDocumentSubtree(d4, mp, oldPrefix, newPrefix)
  }

  function ApplyMove(cfg: Config, db: Db, ev: Event): Db {
    var from, to := Resolve(cfg, ev.oldPath), Resolve(cfg, ev.path);
    if from.Some? && to.Some? && from == to then
      if ev.isDir then MoveDirectory(db, to.value, ev.oldPath, ev.path, ev.stat)
      else MoveFile(cfg, db, to.value, ev.oldPath, ev.path, ev.stat)
    else
      // Out of every root, in from outside, or between two roots: each side that is watched is re-derived.
      Observe(cfg, ApplyDelete(cfg, db, ev.oldPath, ev.isDir), ev.path, ev.stat, ev.isDir, Settled)
  }

  function ApplyKind(cfg: Config, db: Db, ev: Event): Db {
    match ev.kind
    case Create => Observe(cfg, db, ev.path, ev.stat, ev.isDir, Debounced)
    case Modify => Observe(cfg, db, ev.path, ev.stat, ev.isDir, Debounced)
    case CloseWrite => Observe(cfg, db, ev.path, ev.stat, ev.isDir, Settled)
    case Attrib => ObserveOnly(cfg, db, ev.path, ev.stat, ev.isDir)
    case Delete => ApplyDelete(cfg, db, ev.path, ev.isDir)
    case Move => ApplyMove(cfg, db, ev)
    case Unknown => db
  }

  function ApplyEvent(cfg: Config, db: Db, ev: Event): Db {
    if ToInt64(ev.num) <= db.watermark then db
    else SetWatermark(ApplyKind(cfg, db, ev), ToInt64(ev.num))
  }

  // ---- scans ----

  const MODE_DIR: int := 0x8000_0000

  /** fs.ModeDir is bit 31 of the mode. */
  predicate HasDirBit(mode: int) {
    (mode / MODE_DIR) % 2 == 1
  }

  function ScannedObservation(o: Scanned, epoch: int): Observation {
    var row := ObservationOf(o.stat, false, epoch);
    row.(isDir := HasDirBit(row.mode))
  }

  /** The stored state already accounts for a scanned file: same size and mtime, and a live document. */
  predicate Accounted(db: Db, k: Key, next: Observation) {
    k in db.obs && db.obs[k].size == next.size && db.obs[k].mtime == next.mtime && DocsAt(db, k.mp, k.path) != {}
  }

  function ObserveScanned(cfg: Config, db: Db, o: Scanned, epoch: int): Db {
    match Resolve(cfg, o.path)
    case None => db
    case Some(mp) =>
      var k, next := Key(mp, o.path), ScannedObservation(o, epoch);
      var seen := UpsertObservation(db, k, next);
      if next.isDir || !cfg.allow(o.path) || Accounted(db, k, next) then seen
      else EnqueueIngest(seen, IngestJob(mp, o.path, Settled))
  }

  function ObserveAll(cfg: Config, db: Db, stream: seq<Scanned>, epoch: int): Db
    decreases |stream|
  {
    if stream == [] then db
    else ObserveScanned(cfg, ObserveAll(cfg, db, stream[..|stream| - 1], epoch), stream[|stream| - 1], epoch)
  }

  /** How many of the listed paths the scan queues. */
  function QueuedCount(cfg: Config, db: Db, stream: seq<Scanned>, epoch: int): nat
    decreases |stream|
  {
    if stream == [] then 0
    else
      var before := ObserveAll(cfg, db, stream[..|stream| - 1], epoch);
      QueuedCount(cfg, db, stream[..|stream| - 1], epoch)
      + (if ObserveScanned(cfg, before, stream[|stream| - 1], epoch).ingest != before.ingest then 1 else 0)
  }

  function DocsAtAny(db: Db, mp: int, paths: set<Path>): set<nat> {
    set id | id in db.docs && db.docs[id].live && db.docs[id].mp == mp && db.docs[id].path in paths
  }

  /** Sweep one root and withdraw whatever stood at the paths that went. */
  function SweepRoot(db: Db, mp: int, root: Path, epoch: int): Db {
    var swept := SweepScanEpoch(db, mp, root, epoch);
    Withdraw(swept, DocsAtAny(swept, mp, Gone(db, mp, root, epoch)))
  }

  function ReconcileRoot(cfg: Config, db: Db, m: Mountpoint, stream: seq<Scanned>): Db {
    var begun := NextScanEpoch(db);
    SweepRoot(ObserveAll(cfg, begun, stream, begun.epoch), m.id, m.root, begun.epoch)
  }

  /** The first n roots, in the configured order; streams[i] is the walk of root i. */
  function ReconcileRoots(cfg: Config, db: Db, streams: seq<seq<Scanned>>, n: nat): Db
    requires n <= |streams| && n <= |cfg.mountpoints|
  {
    if n == 0 then db
    else ReconcileRoot(cfg, ReconcileRoots(cfg, db, streams, n - 1), cfg.mountpoints[n - 1], streams[n - 1])
  }

  // ---- promotion ----

  predicate SameFile(a: Observation, b: Observation) {
    a.ino == 0 || b.ino == 0 || (a.dev == b.dev && a.ino == b.ino)
  }

  /** Path, then inode, then content, then a new row. */
  function ResolveDocument(db: Db, mp: int, path: Path, o: Observation, digest: string): (Db, nat) {
    var at := FindByPath(db, mp, path);
    var byInode := if o.ino != 0 then FindByInode(db, mp, o.dev, o.ino) else None;
    var byContent := FindByContent(db, mp, digest);
    if at.Some? then
      var d := db.docs[at.value];
      (if d.dev != o.dev || d.ino != o.ino then MoveDocument(db, at.value, path, o.dev, o.ino) else db, at.value)
    else if byInode.Some? then (MoveDocument(db, byInode.value, path, o.dev, o.ino), byInode.value)
    else if byContent.Some? then (MoveDocument(db, byContent.value, path, o.dev, o.ino), byContent.value)
    else (CreateDocument(db, mp, path, o.dev, o.ino), db.nextDoc)
  }

  /** The writes of a won compare-and-swap. */
  function Flip(db: Db, doc: nat, superseded: nat, version: nat): Db {
    var d := EnqueueExtract(MarkExtractionPending(SetVersion(db, doc, version), version), version);
    if superseded != 0 then EnqueueInvalidate(d, Invalidation(doc, superseded)) else d
  }

  function Promote(db: Db, mp: int, path: Path, observed: Observation, digest: string, size: int): Db {
    var k := Key(mp, path);
    if k !in db.obs || db.obs[k].isDir || !SameFile(observed, db.obs[k]) then db
    else
      var (d1, doc) := ResolveDocument(db, mp, path, db.obs[k], digest);
      var d2 := UpsertContentVersion(d1, digest, size);
      var version := d2.versions[digest].id;
      if doc !in d2.docs || d2.docs[doc].version == version then d2
      else Flip(d2, doc, d2.docs[doc].version, version)
  }

  // ---- runs ----

  datatype Step =
    | Applied(ev: Event)
    | Rescanned(m: Mountpoint, stream: seq<Scanned>)
    | Abandoned // a scan whose transaction aborted: only its epoch stays drawn
    | Marked(at: int)
    | Promoted(mp: int, path: Path, observed: Observation, digest: string, size: int)

  function After(cfg: Config, db: Db, step: Step): Db {
    match step
    case Applied(ev) => ApplyEvent(cfg, db, ev)
    case Rescanned(m, stream) => ReconcileRoot(cfg, db, m, stream)
    case Abandoned => NextScanEpoch(db)
    case Marked(at) => SetWatermark(db, at)
    case Promoted(mp, path, observed, digest, size) => Promote(db, mp, path, observed, digest, size)
  }

  function Run(cfg: Config, db: Db, steps: seq<Step>): Db
    decreases |steps|
  {
    if steps == [] then db
    else After(cfg, Run(cfg, db, steps[..|steps| - 1]), steps[|steps| - 1])
  }
}
