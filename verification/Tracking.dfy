/** Once the observations mirror the filesystem, exactly which events keep them doing so, directory
    moves included. */
module Tracking {
  import opened Common
  import opened Paths
  import opened Tables
  import opened Reconcile
  import opened ObservedPaths
  import opened Rename
  import opened Replay

  /** What a filesystem can report: neither end of a directory rename lies inside the other, and no path
      ends in a slash. */
  predicate Plausible(ev: Event) {
    ev.kind == Move && ev.isDir ==>
      && !(SubtreePrefix(ev.oldPath) <= SubtreePrefix(ev.path)) && !(SubtreePrefix(ev.path) <= SubtreePrefix(ev.oldPath))
      && !Beneath(ev.oldPath, ev.oldPath) && !Beneath(ev.path, ev.path)
  }

  predicate SameRootBeneath(cfg: Config, fs: Files, dir: Path, root: Option<int>) {
    forall p :: p in fs && Beneath(p, dir) ==> Resolve(cfg, p) == root
  }

  /** Everything that moved still resolves to the root its rows are under. */
  predicate LandsIn(cfg: Config, fs: Files, oldPath: Path, newPath: Path, root: Option<int>) {
    forall p :: p in fs && Beneath(p, oldPath) ==> Resolve(cfg, Rebase(p, SubtreePrefix(oldPath), SubtreePrefix(newPath))) == root
  }

  /** Nothing watched appears or disappears beneath the destination. */
  ghost predicate NothingNewBeneath(cfg: Config, fs: Files, oldPath: Path, newPath: Path) {
    forall x :: Beneath(x, newPath) && Resolve(cfg, x).Some? ==>
      (x in fs <==> Rebase(x, SubtreePrefix(newPath), SubtreePrefix(oldPath)) in fs)
  }

  /** The condition, on the filesystem before the event: no nested root is involved, and a directory that
      crosses roots brings no watched contents with it. */
  ghost predicate Tracked(cfg: Config, fs: Files, ev: Event) {
    var from, to := Resolve(cfg, ev.oldPath), Resolve(cfg, ev.path);
    if ev.kind == Delete && ev.isDir then SameRootBeneath(cfg, fs, ev.path, to)
    else if ev.kind == Move && ev.isDir then
      && SameRootBeneath(cfg, fs, ev.oldPath, from)
      && if from.Some? && from == to
         then LandsIn(cfg, fs, ev.oldPath, ev.path, to) && SameRootBeneath(cfg, fs, ev.path, to)
         else NothingNewBeneath(cfg, fs, ev.oldPath, ev.path)
    else true
  }

  // ---- deletions ----

  lemma DeleteTracksIff(cfg: Config, db: Db, fs: Files, path: Path)
    requires Mirrors(cfg, db, fs)
    ensures Mirrors(cfg, ApplyDelete(cfg, db, path, true), fs - {path} - BeneathIn(fs, path))
       <==> SameRootBeneath(cfg, fs, path, Resolve(cfg, path))
  {
    var after := ApplyDelete(cfg, db, path, true);
    var fs' := fs - {path} - BeneathIn(fs, path);
    if Mirrors(cfg, after, fs') {
      forall p | p in fs && Beneath(p, path) ensures Resolve(cfg, p) == Resolve(cfg, path) {
        match Resolve(cfg, p)
        case Some(mp) => DeleteRow(cfg, db, path, true, Key(mp, p));
        case None => ContainedBeneath(cfg, path, p);
      }
    }
    if SameRootBeneath(cfg, fs, path, Resolve(cfg, path)) {
      forall k ensures k in after.obs <==> k.path in fs' && Resolve(cfg, k.path) == Some(k.mp) {
        DeleteRow(cfg, db, path, true, k);
      }
    }
  }

  lemma ContainedBeneath(cfg: Config, dir: Path, p: Path)
    requires Beneath(p, dir)
    ensures Resolve(cfg, dir).Some? ==> Resolve(cfg, p).Some?
  {
    DeepestIsDeepest(cfg.mountpoints, dir);
    DeepestIsDeepest(cfg.mountpoints, p);
    var d := Deepest(cfg.mountpoints, dir);
    if d.Some? {
      BeneathStaysContained(d.value.root, dir, p);
    }
  }

  // ---- directory moves within one root ----

  lemma RenamedRow(db: Db, mp: int, oldPath: Path, newPath: Path, stat: Option<Stat>, k: Key)
    ensures var o, n := SubtreePrefix(oldPath), SubtreePrefix(newPath);
            var cleared := ClearDestination(db, mp, newPath);
            k in MoveDirectory(db, mp, oldPath, newPath, stat).obs
            <==> k == Key(mp, newPath)
                 || (k != Key(mp, oldPath)
                     && ((k in cleared.obs && !Under(k, mp, o)) || (Under(k, mp, n) && Source(k, o, n) in cleared.obs)))
  {
    var o, n := SubtreePrefix(oldPath), SubtreePrefix(newPath);
    MovedKey(ClearDestination(db, mp, newPath), mp, o, n, k);
    hide ClearDestination, MoveObservationSubtree;
  }

  /** The same, read off the filesystem the rows mirror. */
  lemma RenamedRowMirrored(cfg: Config, db: Db, fs: Files, mp: int, oldPath: Path, newPath: Path, stat: Option<Stat>, k: Key)
    requires Mirrors(cfg, db, fs) && Plausible(Event(0, Move, newPath, oldPath, true, stat))
    ensures var o, n := SubtreePrefix(oldPath), SubtreePrefix(newPath);
            k in MoveDirectory(db, mp, oldPath, newPath, stat).obs
            <==> if k.mp != mp then k.path in fs && Resolve(cfg, k.path) == Some(k.mp)
                 else if k.path == newPath then true
                 else if k.path == oldPath || o <= k.path then false
                 else if n <= k.path then Rebase(k.path, n, o) in fs && Resolve(cfg, Rebase(k.path, n, o)) == Some(mp)
                 else k.path in fs && Resolve(cfg, k.path) == Some(mp)
  {
    var o, n := SubtreePrefix(oldPath), SubtreePrefix(newPath);
    RenamedRow(db, mp, oldPath, newPath, stat, k);
    hide MoveDirectory, ClearDestination;
    ClearedRow(db, mp, newPath, k);
    PrefixesApart(o, n, k.path);
    if Under(k, mp, n) {
      var s := Source(k, o, n);
      ClearedRow(db, mp, newPath, s);
      PrefixesApart(o, n, s.path);
      assert s.path != newPath;
    }
  }

  lemma HappenRename(fs: Files, oldPath: Path, newPath: Path, stat: Option<Stat>, num: nat, p: Path)
    requires Plausible(Event(num, Move, newPath, oldPath, true, stat))
    ensures var o, n := SubtreePrefix(oldPath), SubtreePrefix(newPath);
            p in Happen(fs, Event(num, Move, newPath, oldPath, true, stat))
            <==> if p == newPath then true
                 else if n <= p then Rebase(p, n, o) in fs
                 else p in fs && p != oldPath && !(o <= p)
  {
    var o, n := SubtreePrefix(oldPath), SubtreePrefix(newPath);
    PrefixesApart(o, n, p);
    if n <= p {
      RebaseBack(p, n, o);
    }
    forall q | q in fs && o <= q ensures n <= Rebase(q, o, n) && Rebase(Rebase(q, o, n), n, o) == q {
      RebaseBack(q, o, n);
    }
  }

  lemma RenameTracks(cfg: Config, db: Db, fs: Files, mp: int, ev: Event)
    requires Mirrors(cfg, db, fs) && Plausible(ev) && ev.kind == Move && ev.isDir
    requires Resolve(cfg, ev.oldPath) == Some(mp) && Resolve(cfg, ev.path) == Some(mp)
    requires Tracked(cfg, fs, ev)
    ensures Mirrors(cfg, MoveDirectory(db, mp, ev.oldPath, ev.path, ev.stat), Happen(fs, ev))
  {
    var o, n := SubtreePrefix(ev.oldPath), SubtreePrefix(ev.path);
    var after := MoveDirectory(db, mp, ev.oldPath, ev.path, ev.stat);
    assert ev == Event(ev.num, Move, ev.path, ev.oldPath, true, ev.stat);
    forall k ensures k in after.obs <==> k.path in Happen(fs, ev) && Resolve(cfg, k.path) == Some(k.mp) {
      RenamedRowMirrored(cfg, db, fs, mp, ev.oldPath, ev.path, ev.stat, k);
      HappenRename(fs, ev.oldPath, ev.path, ev.stat, ev.num, k.path);
      hide MoveDirectory, Happen, Resolve;
      if n <= k.path {
        var s := Rebase(k.path, n, o);
        RebaseBack(k.path, n, o);
        PrefixesApart(o, n, k.path);
        if s in fs {
          assert Beneath(s, ev.oldPath);
          assert Resolve(cfg, Rebase(s, o, n)) == Some(mp);
        }
        assert k.path in fs ==> Beneath(k.path, ev.path) && Resolve(cfg, k.path) == Some(mp);
      } else if o <= k.path {
        assert k.path in fs ==> Beneath(k.path, ev.oldPath);
      }
    }
  }

  /** A rename within one root that kept the mirror. */
  ghost predicate RenameMirrored(cfg: Config, db: Db, fs: Files, mp: int, ev: Event) {
    && Mirrors(cfg, db, fs) && Plausible(ev) && ev == Event(ev.num, Move, ev.path, ev.oldPath, true, ev.stat)
    && Resolve(cfg, ev.oldPath) == Some(mp) && Resolve(cfg, ev.path) == Some(mp)
    && Mirrors(cfg, MoveDirectory(db, mp, ev.oldPath, ev.path, ev.stat), Happen(fs, ev))
  }

  lemma SourceInOneRoot(cfg: Config, db: Db, fs: Files, mp: int, ev: Event, p: Path)
    requires RenameMirrored(cfg, db, fs, mp, ev) && p in fs && Beneath(p, ev.oldPath)
    ensures Resolve(cfg, p) == Some(mp)
  {
    hide MoveDirectory, Happen, Resolve;
    ContainedBeneath(cfg, ev.oldPath, p);
    RenamedRowMirrored(cfg, db, fs, mp, ev.oldPath, ev.path, ev.stat, Key(Resolve(cfg, p).value, p));
    HappenRename(fs, ev.oldPath, ev.path, ev.stat, ev.num, p);
    PrefixesApart(SubtreePrefix(ev.oldPath), SubtreePrefix(ev.path), p);
  }

  lemma LandsInOneRoot(cfg: Config, db: Db, fs: Files, mp: int, ev: Event, p: Path)
    requires RenameMirrored(cfg, db, fs, mp, ev) && p in fs && Beneath(p, ev.oldPath)
    ensures Resolve(cfg, Rebase(p, SubtreePrefix(ev.oldPath), SubtreePrefix(ev.path))) == Some(mp)
  {
    var o, n := SubtreePrefix(ev.oldPath), SubtreePrefix(ev.path);
    var x := Rebase(p, o, n);
    SourceInOneRoot(cfg, db, fs, mp, ev, p);
    hide MoveDirectory, Happen, Resolve;
    RebaseBack(p, o, n);
    PrefixesApart(o, n, x);
    RenamedRowMirrored(cfg, db, fs, mp, ev.oldPath, ev.path, ev.stat, Key(mp, x));
  }

  lemma DestinationInOneRoot(cfg: Config, db: Db, fs: Files, mp: int, ev: Event, p: Path)
    requires RenameMirrored(cfg, db, fs, mp, ev) && p in fs && Beneath(p, ev.path)
    ensures Resolve(cfg, p) == Some(mp)
  {
    var o, n := SubtreePrefix(ev.oldPath), SubtreePrefix(ev.path);
    hide MoveDirectory, Happen, Resolve;
    ContainedBeneath(cfg, ev.path, p);
    RenamedRowMirrored(cfg, db, fs, mp, ev.oldPath, ev.path, ev.stat, Key(Resolve(cfg, p).value, p));
    HappenRename(fs, ev.oldPath, ev.path, ev.stat, ev.num, p);
    if Rebase(p, n, o) in fs {
      RebaseBack(p, n, o);
      LandsInOneRoot(cfg, db, fs, mp, ev, Rebase(p, n, o));
    }
  }

  lemma RenameTracksOnlyIf(cfg: Config, db: Db, fs: Files, mp: int, ev: Event)
    requires Mirrors(cfg, db, fs) && Plausible(ev) && ev.kind == Move && ev.isDir
    requires Resolve(cfg, ev.oldPath) == Some(mp) && Resolve(cfg, ev.path) == Some(mp)
    requires Mirrors(cfg, MoveDirectory(db, mp, ev.oldPath, ev.path, ev.stat), Happen(fs, ev))
    ensures Tracked(cfg, fs, ev)
  {
    hide Mirrors, MoveDirectory, Happen, Plausible, Resolve;
    assert RenameMirrored(cfg, db, fs, mp, ev);
    hide RenameMirrored;
    forall p | p in fs && Beneath(p, ev.oldPath)
      ensures Resolve(cfg, p) == Some(mp) && Resolve(cfg, Rebase(p, SubtreePrefix(ev.oldPath), SubtreePrefix(ev.path))) == Some(mp)
    {
      SourceInOneRoot(cfg, db, fs, mp, ev, p);
      LandsInOneRoot(cfg, db, fs, mp, ev, p);
    }
    forall p | p in fs && Beneath(p, ev.path) ensures Resolve(cfg, p) == Some(mp) {
      DestinationInOneRoot(cfg, db, fs, mp, ev, p);
    }
  }

  // ---- directory moves that cross roots ----

  /** The rows after a deletion of the source and an observation of the destination. */
  lemma CrossedRow(cfg: Config, db: Db, ev: Event, k: Key)
    requires ev.kind == Move && ev.isDir
    requires Resolve(cfg, ev.oldPath) != Resolve(cfg, ev.path) || Resolve(cfg, ev.oldPath).None?
    ensures k in ApplyMove(cfg, db, ev).obs
       <==> (k.path == ev.path && Resolve(cfg, ev.path) == Some(k.mp))
            || (k in db.obs && !(Resolve(cfg, ev.oldPath) == Some(k.mp) && (k.path == ev.oldPath || Beneath(k.path, ev.oldPath))))
  {
    hide ApplyDelete, Observe, MoveFile, MoveDirectory;
    DeleteRow(cfg, db, ev.oldPath, true, k);
    ObserveRow(cfg, ApplyDelete(cfg, db, ev.oldPath, true), ev.path, ev.stat, true, Settled, k);
  }

  lemma CrossingTracks(cfg: Config, db: Db, fs: Files, ev: Event)
    requires Mirrors(cfg, db, fs) && Plausible(ev) && ev.kind == Move && ev.isDir
    requires Resolve(cfg, ev.oldPath) != Resolve(cfg, ev.path) || Resolve(cfg, ev.oldPath).None?
    requires Tracked(cfg, fs, ev)
    ensures Mirrors(cfg, ApplyMove(cfg, db, ev), Happen(fs, ev))
  {
    var o, n := SubtreePrefix(ev.oldPath), SubtreePrefix(ev.path);
    var after := ApplyMove(cfg, db, ev);
    assert ev == Event(ev.num, Move, ev.path, ev.oldPath, true, ev.stat);
    forall k ensures k in after.obs <==> k.path in Happen(fs, ev) && Resolve(cfg, k.path) == Some(k.mp) {
      CrossedRow(cfg, db, ev, k);
      HappenRename(fs, ev.oldPath, ev.path, ev.stat, ev.num, k.path);
      PrefixesApart(o, n, k.path);
      hide ApplyMove, Happen, Resolve;
      if n <= k.path {
        assert Beneath(k.path, ev.path) && !Beneath(k.path, ev.oldPath);
      } else if o <= k.path {
        assert k.path in fs ==> Beneath(k.path, ev.oldPath);
      }
    }
  }

  lemma CrossingTracksOnlyIf(cfg: Config, db: Db, fs: Files, ev: Event)
    requires Mirrors(cfg, db, fs) && Plausible(ev) && ev.kind == Move && ev.isDir
    requires Resolve(cfg, ev.oldPath) != Resolve(cfg, ev.path) || Resolve(cfg, ev.oldPath).None?
    requires Mirrors(cfg, ApplyMove(cfg, db, ev), Happen(fs, ev))
    ensures Tracked(cfg, fs, ev)
  {
    var o, n := SubtreePrefix(ev.oldPath), SubtreePrefix(ev.path);
    assert ev == Event(ev.num, Move, ev.path, ev.oldPath, true, ev.stat);
    hide ApplyMove, Happen;
    forall p | p in fs && Beneath(p, ev.oldPath) ensures Resolve(cfg, p) == Resolve(cfg, ev.oldPath) {
      ContainedBeneath(cfg, ev.oldPath, p);
      if Resolve(cfg, p).Some? {
        CrossedRow(cfg, db, ev, Key(Resolve(cfg, p).value, p));
        HappenRename(fs, ev.oldPath, ev.path, ev.stat, ev.num, p);
        PrefixesApart(o, n, p);
      }
    }
    forall x | Beneath(x, ev.path) && Resolve(cfg, x).Some? ensures x in fs <==> Rebase(x, n, o) in fs {
      CrossedRow(cfg, db, ev, Key(Resolve(cfg, x).value, x));
      HappenRename(fs, ev.oldPath, ev.path, ev.stat, ev.num, x);
      PrefixesApart(o, n, x);
    }
  }

  // ---- every event ----

  lemma FileEventTracks(cfg: Config, db: Db, fs: Files, ev: Event)
    requires Distinct(cfg.mountpoints) && Mirrors(cfg, db, fs)
    requires !((ev.kind == Delete || ev.kind == Move) && ev.isDir)
    ensures Mirrors(cfg, ApplyKind(cfg, db, ev), Happen(fs, ev))
  {
    var after := ApplyKind(cfg, db, ev);
    forall k ensures k in after.obs <==> k.path in Happen(fs, ev) && Resolve(cfg, k.path) == Some(k.mp) {
      PlainApplies(cfg, db, ev, k);
      PlainHappens(fs, ev, k.path);
      hide ApplyKind, Happen;
    }
  }

  /** From observations that mirror the filesystem, an event leaves them mirroring it if and only if it is
      tracked. */
  lemma EventTracksIff(cfg: Config, db: Db, fs: Files, ev: Event)
    requires Distinct(cfg.mountpoints) && Mirrors(cfg, db, fs) && Plausible(ev)
    ensures Mirrors(cfg, ApplyKind(cfg, db, ev), Happen(fs, ev)) <==> Tracked(cfg, fs, ev)
  {
    if ev.kind == Delete && ev.isDir {
      DeleteTracksIff(cfg, db, fs, ev.path);
    } else if ev.kind == Move && ev.isDir {
      var from, to := Resolve(cfg, ev.oldPath), Resolve(cfg, ev.path);
      hide MoveDirectory, ApplyDelete, Observe, MoveFile, Happen, Mirrors;
      if from.Some? && from == to {
        if Tracked(cfg, fs, ev) { RenameTracks(cfg, db, fs, to.value, ev); }
        if Mirrors(cfg, ApplyKind(cfg, db, ev), Happen(fs, ev)) { RenameTracksOnlyIf(cfg, db, fs, to.value, ev); }
      } else {
        if Tracked(cfg, fs, ev) { CrossingTracks(cfg, db, fs, ev); }
        if Mirrors(cfg, ApplyKind(cfg, db, ev), Happen(fs, ev)) { CrossingTracksOnlyIf(cfg, db, fs, ev); }
      }
    } else {
      FileEventTracks(cfg, db, fs, ev);
    }
  }

  /** One root inside another. */
  function Nested(allow: Path -> bool): Config {
    Config([Mountpoint(1, "/r"), Mountpoint(2, "/r/d/n")], allow)
  }

  lemma NestedResolves(allow: Path -> bool)
    ensures Resolve(Nested(allow), "/r/d") == Some(1) && Resolve(Nested(allow), "/r/d/n") == Some(2)
    ensures Beneath("/r/d/n", "/r/d")
  {
    var ms := Nested(allow).mountpoints;
    assert "/r/d/n"[..5] == "/r/d/" && "/r/d"[..3] == "/r/";
    assert ms[..1] == [ms[0]] && ms[..1][..0] == [];
    assert Deepest(ms[..1], "/r/d") == Some(ms[0]) && Deepest(ms[..1], "/r/d/n") == Some(ms[0]);
    assert !("/r/d/n/" <= "/r/d");
  }

  /** Deleting a directory that holds a nested root leaves that root's row for a file that is gone. */
  lemma NestedRootOutlivesItsDirectory(allow: Path -> bool, o: Observation)
    ensures var cfg, fs := Nested(allow), {"/r/d", "/r/d/n"};
            var db := EMPTY_DB.(obs := map[Key(1, "/r/d") := o, Key(2, "/r/d/n") := o]);
            var ev := Event(1, Delete, "/r/d", "", true, None);
            && Mirrors(cfg, db, fs) && !Tracked(cfg, fs, ev)
            && Key(2, "/r/d/n") in ApplyKind(cfg, db, ev).obs && "/r/d/n" !in Happen(fs, ev)
            && !Mirrors(cfg, ApplyKind(cfg, db, ev), Happen(fs, ev))
  {
    var cfg, fs := Nested(allow), {"/r/d", "/r/d/n"};
    var db := EMPTY_DB.(obs := map[Key(1, "/r/d") := o, Key(2, "/r/d/n") := o]);
    NestedResolves(allow);
    hide Resolve, ApplyDelete, Nested, Beneath;
    DeleteRow(cfg, db, "/r/d", true, Key(2, "/r/d/n"));
    assert Mirrors(cfg, db, fs);
    assert "/r/d/n" in BeneathIn(fs, "/r/d");
  }

  /** One fresh tracked event. */
  lemma FreshEventTracks(cfg: Config, db: Db, fs: Files, ev: Event)
    requires Distinct(cfg.mountpoints) && Mirrors(cfg, db, fs) && ToInt64(ev.num) > db.watermark
    requires Plausible(ev) && Tracked(cfg, fs, ev)
    ensures Mirrors(cfg, ApplyEvent(cfg, db, ev), Happen(fs, ev))
  {
    hide ApplyKind, Happen, Tracked, Mirrors;
    EventTracksIff(cfg, db, fs, ev);
    MarkKeepsMirror(cfg, ApplyKind(cfg, db, ev), Happen(fs, ev), ToInt64(ev.num));
  }

  /** Fresh, tracked events keep the mirror for as long as they come. */
  lemma {:induction false} RunTracks(cfg: Config, db: Db, fs: Files, evs: seq<Event>)
    requires Distinct(cfg.mountpoints) && Mirrors(cfg, db, fs) && Follows(evs, db.watermark)
    requires forall i :: 0 <= i < |evs| ==> Plausible(evs[i]) && Tracked(cfg, HappenAll(fs, evs[..i]), evs[i])
    ensures Mirrors(cfg, ApplyAll(cfg, db, evs), HappenAll(fs, evs))
    decreases |evs|
  {
    if evs != [] {
      var init, last := evs[..|evs| - 1], evs[|evs| - 1];
      ApplyAllMark(cfg, db, init);
      hide ApplyEvent, Happen, Tracked, Plausible, Mirrors, Distinct;
      forall i | 0 <= i < |init| ensures Plausible(init[i]) && Tracked(cfg, HappenAll(fs, init[..i]), init[i]) {
        assert init[..i] == evs[..i];
      }
      RunTracks(cfg, db, fs, init);
      FreshEventTracks(cfg, ApplyAll(cfg, db, init), HappenAll(fs, init), last);
    }
  }

  lemma MarkKeepsMirror(cfg: Config, db: Db, fs: Files, at: int)
    requires Mirrors(cfg, db, fs)
    ensures Mirrors(cfg, SetWatermark(db, at), fs)
  {
  }
}
