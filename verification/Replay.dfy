/** A non-atomic scan followed by the replay of everything that happened since the ring head was read
    leaves the observations equal to the filesystem. */
module Replay {
  import opened Common
  import opened Paths
  import opened Tables
  import opened Reconcile
  import opened Ledger
  import opened Scans

  /** The filesystem as the set of paths that exist; each event is what it reports having happened. */
  type Files = set<Path>

  function BeneathIn(fs: Files, dir: Path): Files {
    set p | p in fs && Beneath(p, dir)
  }

  function Happen(fs: Files, ev: Event): Files {
    match ev.kind
    case Delete => fs - {ev.path} - (if ev.isDir then BeneathIn(fs, ev.path) else {})
    case Move =>
      if ev.isDir then
        (fs - {ev.oldPath, ev.path} - BeneathIn(fs, ev.oldPath) - BeneathIn(fs, ev.path)) + {ev.path}
        + (set p | p in BeneathIn(fs, ev.oldPath) && SubtreePrefix(ev.oldPath) <= p
             :: Rebase(p, SubtreePrefix(ev.oldPath), SubtreePrefix(ev.path)))
      else fs - {ev.oldPath} + {ev.path}
    case Unknown => fs
    case _ => fs + {ev.path}
  }

  function HappenAll(fs: Files, evs: seq<Event>): Files
    decreases |evs|
  {
    if evs == [] then fs else Happen(HappenAll(fs, evs[..|evs| - 1]), evs[|evs| - 1])
  }

  /** Every event but a directory move assigns the presence of the paths it touches outright. */
  predicate Touches(ev: Event, p: Path) {
    match ev.kind
    case Delete => p == ev.path || (ev.isDir && Beneath(p, ev.path))
    case Move => p == ev.path || p == ev.oldPath
    case Unknown => false
    case _ => p == ev.path
  }

  predicate Assigns(ev: Event, p: Path)
    requires Touches(ev, p)
  {
    ev.kind != Delete && p == ev.path
  }

  predicate TouchedBy(evs: seq<Event>, p: Path)
    decreases |evs|
  {
    evs != [] && (Touches(evs[|evs| - 1], p) || TouchedBy(evs[..|evs| - 1], p))
  }

  /** Not a directory move, and not the deletion of a directory some watched root lies beneath. */
  predicate Plain(cfg: Config, ev: Event) {
    && !(ev.kind == Move && ev.isDir)
    && (ev.kind == Delete && ev.isDir ==> forall m :: m in cfg.mountpoints ==> !Beneath(m.root, ev.path))
  }

  lemma PlainHappens(fs: Files, ev: Event, p: Path)
    requires !(ev.kind == Move && ev.isDir)
    ensures p in Happen(fs, ev) <==> if Touches(ev, p) then Assigns(ev, p) else p in fs
  {
  }

  lemma ObserveRow(cfg: Config, db: Db, path: Path, stat: Option<Stat>, isDir: bool, trigger: Trigger, k: Key)
    ensures k in Observe(cfg, db, path, stat, isDir, trigger).obs
       <==> k in db.obs || (k.path == path && Resolve(cfg, path) == Some(k.mp))
    ensures k in ObserveOnly(cfg, db, path, stat, isDir).obs
       <==> k in db.obs || (k.path == path && Resolve(cfg, path) == Some(k.mp))
  {
  }

  lemma DeleteRow(cfg: Config, db: Db, path: Path, isDir: bool, k: Key)
    ensures k in ApplyDelete(cfg, db, path, isDir).obs
       <==> k in db.obs && !(Resolve(cfg, path) == Some(k.mp) && (k.path == path || (isDir && Beneath(k.path, path))))
  {
    hide Owed;
  }

  lemma FileMoveRow(cfg: Config, db: Db, mp: int, oldPath: Path, newPath: Path, stat: Option<Stat>, k: Key)
    ensures k in MoveFile(cfg, db, mp, oldPath, newPath, stat).obs
       <==> k == Key(mp, newPath) || (k in db.obs && k != Key(mp, oldPath))
  {
    hide Owed;
  }

  /** One applied event on the row that stands for a path; a row under the wrong root is never created. */
  lemma PlainApplies(cfg: Config, db: Db, ev: Event, k: Key)
    requires Distinct(cfg.mountpoints) && Plain(cfg, ev)
    ensures var after := ApplyKind(cfg, db, ev);
            if Resolve(cfg, k.path) == Some(k.mp)
            then k in after.obs <==> if Touches(ev, k.path) then Assigns(ev, k.path) else k in db.obs
            else k in after.obs ==> k in db.obs
  {
    hide ApplyDelete, MoveFile, Observe, ObserveOnly, MoveDirectory;
    match ev.kind
    case Delete =>
      DeleteRow(cfg, db, ev.path, ev.isDir, k);
      if ev.isDir && Beneath(k.path, ev.path) {
        RootFreeResolves(cfg.mountpoints, ev.path, k.path);
      }
    case Move =>
      var from, to := Resolve(cfg, ev.oldPath), Resolve(cfg, ev.path);
      if from.Some? && from == to {
        FileMoveRow(cfg, db, to.value, ev.oldPath, ev.path, ev.stat, k);
      } else {
        DeleteRow(cfg, db, ev.oldPath, ev.isDir, k);
        ObserveRow(cfg, ApplyDelete(cfg, db, ev.oldPath, ev.isDir), ev.path, ev.stat, ev.isDir, Settled, k);
      }
    case CloseWrite => ObserveRow(cfg, db, ev.path, ev.stat, ev.isDir, Settled, k);
    case Unknown =>
    case _ => ObserveRow(cfg, db, ev.path, ev.stat, ev.isDir, Debounced, k);
  }

  /** The observations mirror the filesystem: one row per existing watched path, under its deepest root. */
  ghost predicate Mirrors(cfg: Config, db: Db, fs: Files) {
    forall k :: k in db.obs <==> k.path in fs && Resolve(cfg, k.path) == Some(k.mp)
  }

  function ApplyAll(cfg: Config, db: Db, evs: seq<Event>): Db
    decreases |evs|
  {
    if evs == [] then db else ApplyEvent(cfg, ApplyAll(cfg, db, evs[..|evs| - 1]), evs[|evs| - 1])
  }

  /** Sequence numbers increase, and start past the watermark. */
  ghost predicate Follows(evs: seq<Event>, mark: int) {
    && (forall i :: 0 <= i < |evs| ==> ToInt64(evs[i].num) > mark)
    && (forall i, j :: 0 <= i < j < |evs| ==> ToInt64(evs[i].num) < ToInt64(evs[j].num))
  }

  lemma {:induction false} ApplyAllMark(cfg: Config, db: Db, evs: seq<Event>)
    requires Follows(evs, db.watermark)
    ensures ApplyAll(cfg, db, evs).watermark == if evs == [] then db.watermark else ToInt64(evs[|evs| - 1].num)
    decreases |evs|
  {
    if evs != [] {
      ApplyAllMark(cfg, db, evs[..|evs| - 1]);
      KindKeepsWatermark(cfg, ApplyAll(cfg, db, evs[..|evs| - 1]), evs[|evs| - 1]);
      hide ApplyKind;
    }
  }

  lemma DeleteKeepsWatermark(cfg: Config, db: Db, path: Path, isDir: bool)
    ensures var after := ApplyDelete(cfg, db, path, isDir);
            after.watermark == db.watermark && after.epoch == db.epoch && after.nextDoc == db.nextDoc
  {
    hide Owed, DocsAt, DocsUnder;
  }

  lemma MoveFileKeepsWatermark(cfg: Config, db: Db, mp: int, oldPath: Path, newPath: Path, stat: Option<Stat>)
    ensures var after := MoveFile(cfg, db, mp, oldPath, newPath, stat);
            after.watermark == db.watermark && after.epoch == db.epoch && after.nextDoc == db.nextDoc
  {
    hide Owed, DocsAt;
  }

  lemma MoveDirectoryKeepsWatermark(db: Db, mp: int, oldPath: Path, newPath: Path, stat: Option<Stat>)
    ensures var after := MoveDirectory(db, mp, oldPath, newPath, stat);
            after.watermark == db.watermark && after.epoch == db.epoch && after.nextDoc == db.nextDoc
  {
    hide Owed, DocsUnder, MovedKeys, LiveUnder;
  }

  lemma KindKeepsWatermark(cfg: Config, db: Db, ev: Event)
    ensures var after := ApplyKind(cfg, db, ev);
            after.watermark == db.watermark && after.epoch == db.epoch && after.nextDoc == db.nextDoc
  {
    hide ApplyDelete, MoveFile, MoveDirectory;
    DeleteKeepsWatermark(cfg, db, ev.path, ev.isDir);
    DeleteKeepsWatermark(cfg, db, ev.oldPath, ev.isDir);
    if Resolve(cfg, ev.path).Some? {
      MoveFileKeepsWatermark(cfg, db, Resolve(cfg, ev.path).value, ev.oldPath, ev.path, ev.stat);
      MoveDirectoryKeepsWatermark(db, Resolve(cfg, ev.path).value, ev.oldPath, ev.path, ev.stat);
    }
  }

  /** Replaying fresh events settles every touched path and leaves every other as the scan left it. */
  lemma {:induction false} ReplayRow(cfg: Config, db: Db, evs: seq<Event>, fs: Files, k: Key)
    requires Distinct(cfg.mountpoints) && Follows(evs, db.watermark)
    requires forall i :: 0 <= i < |evs| ==> Plain(cfg, evs[i])
    ensures var after := ApplyAll(cfg, db, evs);
            if Resolve(cfg, k.path) == Some(k.mp)
            then k in after.obs <==> if TouchedBy(evs, k.path) then k.path in HappenAll(fs, evs) else k in db.obs
            else k in after.obs ==> k in db.obs
    decreases |evs|
  {
    if evs != [] {
      var init, last := evs[..|evs| - 1], evs[|evs| - 1];
      var before := ApplyAll(cfg, db, init);
      ReplayRow(cfg, db, init, fs, k);
      ApplyAllMark(cfg, db, init);
      PlainApplies(cfg, before, last, k);
      PlainHappens(HappenAll(fs, init), last, k.path);
      hide ApplyKind, Happen, Touches, Assigns, Plain, Resolve;
    }
  }

  lemma {:induction false} UntouchedStays(fs: Files, evs: seq<Event>, n: nat, p: Path)
    requires n <= |evs| && !TouchedBy(evs, p)
    requires forall i :: 0 <= i < |evs| ==> !(evs[i].kind == Move && evs[i].isDir)
    ensures p in HappenAll(fs, evs[..n]) <==> p in fs
    decreases |evs|
  {
    if n == |evs| {
      assert evs[..n] == evs;
      if evs != [] {
        UntouchedStays(fs, evs[..n - 1], n - 1, p);
        assert evs[..n - 1][..n - 1] == evs[..n - 1];
        PlainHappens(HappenAll(fs, evs[..n - 1]), evs[n - 1], p);
      }
    } else {
      assert evs[..|evs| - 1][..n] == evs[..n];
      UntouchedStays(fs, evs[..|evs| - 1], n, p);
    }
  }

  /** The walk of one root, each path looked at in a moment of its own: after some number of the events. */
  ghost predicate Walks(root: Path, stream: seq<Scanned>, fs: Files, evs: seq<Event>, moment: Path -> nat) {
    forall p :: (exists i :: 0 <= i < |stream| && stream[i].path == p)
           <==> (Contains(root, p) && moment(p) <= |evs| && p in HappenAll(fs, evs[..moment(p)]))
  }

  /** Every row lies under the root of its own mountpoint. */
  ghost predicate Rooted(cfg: Config, db: Db) {
    forall k :: k in db.obs ==> HasRoot(cfg, k)
  }

  predicate HasRoot(cfg: Config, k: Key) {
    exists i :: 0 <= i < |cfg.mountpoints| && RootOf(cfg, i, k)
  }

  predicate RootOf(cfg: Config, i: int, k: Key)
    requires 0 <= i < |cfg.mountpoints|
  {
    cfg.mountpoints[i].id == k.mp && Contains(cfg.mountpoints[i].root, k.path)
  }

  lemma ResolvedRoot(cfg: Config, k: Key)
    requires Resolve(cfg, k.path) == Some(k.mp)
    ensures HasRoot(cfg, k)
  {
    DeepestIsDeepest(cfg.mountpoints, k.path);
    var m := Deepest(cfg.mountpoints, k.path).value;
    var i :| 0 <= i < |cfg.mountpoints| && cfg.mountpoints[i] == m;
    assert RootOf(cfg, i, k);
  }

  lemma {:induction false} ScansEpochs(cfg: Config, db: Db, streams: seq<seq<Scanned>>, n: nat)
    requires EpochsDrawn(db) && n <= |streams| && n <= |cfg.mountpoints|
    ensures EpochsDrawn(ReconcileRoots(cfg, db, streams, n))
  {
    if n > 0 {
      ScansEpochs(cfg, db, streams, n - 1);
      ScanEpochs(cfg, ReconcileRoots(cfg, db, streams, n - 1), cfg.mountpoints[n - 1], streams[n - 1]);
    }
  }

  /** A row of a scanned root: under its deepest root, and there exactly when the path is, unless a later
      event touches it. */
  predicate InPlace(cfg: Config, db: Db, fs: Files, evs: seq<Event>, k: Key) {
    && (k in db.obs ==> Resolve(cfg, k.path) == Some(k.mp))
    && (Resolve(cfg, k.path) == Some(k.mp) && !TouchedBy(evs, k.path) ==> (k in db.obs <==> k.path in fs))
  }

  lemma WalkSees(cfg: Config, m: Mountpoint, stream: seq<Scanned>, moment: Path -> nat, fs: Files, evs: seq<Event>, k: Key)
    requires Walks(m.root, stream, fs, evs, moment) && moment(k.path) <= |evs| && !TouchedBy(evs, k.path)
    requires forall i :: 0 <= i < |evs| ==> !(evs[i].kind == Move && evs[i].isDir)
    requires Resolve(cfg, k.path) == Some(k.mp)
    ensures ScannedKey(cfg, stream, k) <==> Contains(m.root, k.path) && k.path in fs
  {
    UntouchedStays(fs, evs, moment(k.path), k.path);
  }

  /** One more root scanned. */
  lemma ScanSettles(
      cfg: Config, db: Db, i: nat, stream: seq<Scanned>, moment: Path -> nat, fs: Files, evs: seq<Event>, k: Key)
    requires Distinct(cfg.mountpoints) && EpochsDrawn(db) && i < |cfg.mountpoints|
    requires Walks(cfg.mountpoints[i].root, stream, fs, evs, moment) && moment(k.path) <= |evs|
    requires forall i :: 0 <= i < |evs| ==> !(evs[i].kind == Move && evs[i].isDir)
    ensures var after := ReconcileRoot(cfg, db, cfg.mountpoints[i], stream);
            && (k in after.obs ==> k in db.obs || Resolve(cfg, k.path) == Some(k.mp))
            && (RootOf(cfg, i, k) || InPlace(cfg, db, fs, evs, k) ==> InPlace(cfg, after, fs, evs, k))
  {
    var m := cfg.mountpoints[i];
    ScanLeavesExactlyWhatItSaw(cfg, db, m, stream, k);
    if Resolve(cfg, k.path) == Some(k.mp) && !TouchedBy(evs, k.path) {
      WalkSees(cfg, m, stream, moment, fs, evs, k);
    }
    hide ReconcileRoot, Walks;
  }

  /** Every root was walked, and no path was looked at after the last event. */
  ghost predicate AllWalked(cfg: Config, streams: seq<seq<Scanned>>, moments: seq<Path -> nat>, fs: Files, evs: seq<Event>) {
    && |streams| == |moments| == |cfg.mountpoints|
    && (forall i :: 0 <= i < |streams| ==> Walks(cfg.mountpoints[i].root, streams[i], fs, evs, moments[i]))
    && (forall i, p :: 0 <= i < |moments| ==> moments[i](p) <= |evs|)
  }

  /** After the first n roots, a row of root i is in place as soon as i is one of them. */
  lemma {:induction false} ScannedRow(
      cfg: Config, db: Db, streams: seq<seq<Scanned>>, moments: seq<Path -> nat>, n: nat, i: nat,
      fs: Files, evs: seq<Event>, k: Key)
    requires Distinct(cfg.mountpoints) && EpochsDrawn(db)
    requires AllWalked(cfg, streams, moments, fs, evs) && |streams| == |moments| == |cfg.mountpoints|
    requires n <= |streams| && i < |streams|
    requires forall i :: 0 <= i < |evs| ==> !(evs[i].kind == Move && evs[i].isDir)
    ensures var after := ReconcileRoots(cfg, db, streams, n);
            && (k in after.obs ==> k in db.obs || Resolve(cfg, k.path) == Some(k.mp))
            && (i < n && RootOf(cfg, i, k) ==> InPlace(cfg, after, fs, evs, k))
    decreases n
  {
    hide ReconcileRoot, EpochsDrawn, AllWalked, Walks, InPlace, Distinct, Resolve;
    if n > 0 {
      ScannedRow(cfg, db, streams, moments, n - 1, i, fs, evs, k);
      ScansEpochs(cfg, db, streams, n - 1);
      WalkOf(cfg, streams, moments, n - 1, fs, evs, k.path);
      ScanSettles(cfg, ReconcileRoots(cfg, db, streams, n - 1), n - 1, streams[n - 1], moments[n - 1], fs, evs, k);
    }
  }

  lemma WalkOf(
      cfg: Config, streams: seq<seq<Scanned>>, moments: seq<Path -> nat>, i: nat, fs: Files, evs: seq<Event>, p: Path)
    requires AllWalked(cfg, streams, moments, fs, evs) && i < |streams|
    ensures |streams| == |moments| == |cfg.mountpoints|
    ensures Walks(cfg.mountpoints[i].root, streams[i], fs, evs, moments[i]) && moments[i](p) <= |evs|
  {
  }

  /** Scan plus replay is exact: with each path of each root's walk seen at its own moment after the ring
      head was read, applying every later event in order leaves exactly the filesystem's paths observed,
      each under its deepest root, for any log without directory moves or deletions across a nested root. */
  lemma ScanPlusReplayIsExact(
      cfg: Config, db: Db, streams: seq<seq<Scanned>>, moments: seq<Path -> nat>, head: int,
      fs: Files, evs: seq<Event>)
    requires Distinct(cfg.mountpoints) && EpochsDrawn(db) && Rooted(cfg, db) && db.watermark <= head
    requires AllWalked(cfg, streams, moments, fs, evs)
    requires Follows(evs, head) && forall i :: 0 <= i < |evs| ==> Plain(cfg, evs[i])
    ensures var scanned := SetWatermark(ReconcileRoots(cfg, db, streams, |streams|), head);
            Mirrors(cfg, ApplyAll(cfg, scanned, evs), HappenAll(fs, evs))
  {
    var scanned := SetWatermark(ReconcileRoots(cfg, db, streams, |streams|), head);
    ScansKeepWatermark(cfg, db, streams, |streams|);
    forall k ensures k in ApplyAll(cfg, scanned, evs).obs
                <==> k.path in HappenAll(fs, evs) && Resolve(cfg, k.path) == Some(k.mp)
    {
      ReplayRow(cfg, scanned, evs, fs, k);
      ScannedInPlace(cfg, db, streams, moments, fs, evs, k);
      hide ApplyAll, ReconcileRoots, HappenAll, TouchedBy, Resolve, EpochsDrawn, AllWalked, Plain, Follows, Rooted;
      if Resolve(cfg, k.path) == Some(k.mp) && !TouchedBy(evs, k.path) {
        UntouchedStays(fs, evs, |evs|, k.path);
        assert evs[..|evs|] == evs;
      }
    }
  }

  /** Once every root is scanned, every row is in place. */
  lemma ScannedInPlace(
      cfg: Config, db: Db, streams: seq<seq<Scanned>>, moments: seq<Path -> nat>, fs: Files, evs: seq<Event>, k: Key)
    requires Distinct(cfg.mountpoints) && EpochsDrawn(db) && Rooted(cfg, db)
    requires AllWalked(cfg, streams, moments, fs, evs)
    requires forall i :: 0 <= i < |evs| ==> !(evs[i].kind == Move && evs[i].isDir)
    ensures InPlace(cfg, ReconcileRoots(cfg, db, streams, |streams|), fs, evs, k)
  {
    var after := ReconcileRoots(cfg, db, streams, |streams|);
    if Resolve(cfg, k.path) == Some(k.mp) {
      ResolvedRoot(cfg, k);
    }
    hide ReconcileRoots, EpochsDrawn, Walks, Distinct, Resolve;
    if i :| 0 <= i < |cfg.mountpoints| && RootOf(cfg, i, k) {
      ScannedRow(cfg, db, streams, moments, |streams|, i, fs, evs, k);
    } else if k in after.obs {
      assert |streams| > 0;
      ScannedRow(cfg, db, streams, moments, |streams|, 0, fs, evs, k);
    }
  }

  lemma {:induction false} ScansKeepWatermark(cfg: Config, db: Db, streams: seq<seq<Scanned>>, n: nat)
    requires n <= |streams| && n <= |cfg.mountpoints|
    ensures ReconcileRoots(cfg, db, streams, n).watermark == db.watermark
  {
    if n > 0 {
      hide ReconcileRoot;
      ScansKeepWatermark(cfg, db, streams, n - 1);
      RootKeepsWatermark(cfg, ReconcileRoots(cfg, db, streams, n - 1), cfg.mountpoints[n - 1], streams[n - 1]);
    }
  }

  lemma RootKeepsWatermark(cfg: Config, db: Db, m: Mountpoint, stream: seq<Scanned>)
    ensures ReconcileRoot(cfg, db, m, stream).watermark == db.watermark
  {
    var begun := NextScanEpoch(db);
    ObserveAllTouchesNoDocument(cfg, begun, stream, begun.epoch);
    hide Owed, ObserveAll, DocsAtAny, Gone;
  }
}
