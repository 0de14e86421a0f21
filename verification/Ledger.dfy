/** Which document holds which content version, and the exact account of invalidations owed for it. */
module Ledger {
  import opened Common
  import opened Paths
  import opened Tables
  import opened Reconcile

  /** The (document, version) pairs current for a live document. */
  function Held(docs: map<nat, Document>): set<Invalidation> {
    set id | id in docs && docs[id].live && docs[id].version != 0 :: Invalidation(id, docs[id].version)
  }

  predicate Holds(docs: map<nat, Document>, j: Invalidation) {
    j.doc in docs && docs[j.doc].live && docs[j.doc].version == j.version && j.version != 0
  }

  lemma HeldMember(docs: map<nat, Document>, j: Invalidation)
    ensures j in Held(docs) <==> Holds(docs, j)
  {
  }

  /** Document ids come from an identity column. */
  ghost predicate FreshIds(db: Db) {
    forall id :: id in db.docs ==> id < db.nextDoc
  }

  /** So do content version ids: no document holds one that was never drawn. */
  ghost predicate VersionsDrawn(db: Db) {
    forall id :: id in db.docs ==> db.docs[id].version < db.nextVersion
  }

  /** b requests exactly one invalidation for each pair that a held and b does not, and no other. */
  ghost predicate Accounts(a: Db, b: Db) {
    b.invalidate == a.invalidate + multiset(Held(a.docs) - Held(b.docs))
  }

  /** The content side of the database, which events and scans leave alone. */
  ghost predicate SameContent(a: Db, b: Db) {
    a.versions == b.versions && a.nextVersion == b.nextVersion
    && a.extract == b.extract && a.extractions == b.extractions
  }

  /** A step that takes up no version, and accounts for each one it lets go of. */
  ghost predicate Sheds(a: Db, b: Db) {
    Held(b.docs) <= Held(a.docs) && Accounts(a, b) && (FreshIds(a) ==> FreshIds(b))
    && (VersionsDrawn(a) ==> VersionsDrawn(b)) && SameContent(a, b)
  }

  lemma DifferencesChain(A: set<Invalidation>, B: set<Invalidation>, C: set<Invalidation>)
    requires C <= B <= A
    ensures multiset(A - C) == multiset(A - B) + multiset(B - C)
  {
    assert A - C == (A - B) + (B - C);
  }

  lemma ShedsTrans(a: Db, b: Db, c: Db)
    requires Sheds(a, b) && Sheds(b, c)
    ensures Sheds(a, c)
  {
    hide Held;
    DifferencesChain(Held(a.docs), Held(b.docs), Held(c.docs));
  }

  lemma SameDocsSheds(a: Db, b: Db)
    requires a.docs == b.docs && a.invalidate == b.invalidate && a.nextDoc == b.nextDoc && SameContent(a, b)
    ensures Sheds(a, b)
  {
    assert Held(a.docs) - Held(b.docs) == {};
  }

  lemma WithdrawSheds(db: Db, ids: set<nat>)
    requires forall id :: id in ids ==> id in db.docs && db.docs[id].live
    ensures Sheds(db, Withdraw(db, ids))
  {
    var after := Withdraw(db, ids);
    forall j ensures j in Held(after.docs) <==> j in Held(db.docs) && j !in Owed(db, ids) {
      HeldMember(after.docs, j);
      HeldMember(db.docs, j);
    }
    forall j | j in Owed(db, ids) ensures j in Held(db.docs) {
      HeldMember(db.docs, j);
    }
    assert Held(db.docs) - Held(after.docs) == Owed(db, ids);
  }

  /** Re-pathing documents keeps the set of held pairs. */
  lemma RepathKeepsHeld(a: map<nat, Document>, b: map<nat, Document>)
    requires a.Keys == b.Keys
    requires forall id :: id in a ==> a[id].live == b[id].live && a[id].version == b[id].version
    ensures Held(a) == Held(b)
  {
    forall j ensures j in Held(a) <==> j in Held(b) {
      HeldMember(a, j);
      HeldMember(b, j);
    }
  }

  /** Re-pathing documents changes nobody's hold on a version. */
  lemma RepathSheds(a: Db, b: Db)
    requires a.invalidate == b.invalidate && a.nextDoc == b.nextDoc && SameContent(a, b)
    requires a.docs.Keys == b.docs.Keys
    requires forall id :: id in a.docs ==> a.docs[id].live == b.docs[id].live && a.docs[id].version == b.docs[id].version
    ensures Sheds(a, b)
  {
    RepathKeepsHeld(a.docs, b.docs);
    assert Held(a.docs) - Held(b.docs) == {};
  }

  lemma DeleteSheds(cfg: Config, db: Db, path: Path, isDir: bool)
    ensures Sheds(db, ApplyDelete(cfg, db, path, isDir))
  {
    match Resolve(cfg, path)
    case None => SameDocsSheds(db, db);
    case Some(mp) =>
      var d1 := DeleteObservation(db, Key(mp, path));
      var d2 := if isDir then DeleteObservationSubtree(d1, mp, SubtreePrefix(path)) else d1;
      var ids := if isDir then DocsUnder(d2, mp, SubtreePrefix(path)) else DocsAt(d2, mp, path);
      SameDocsSheds(db, d2);
      WithdrawSheds(d2, ids);
      ShedsTrans(db, d2, Withdraw(d2, ids));
  }

  lemma MoveFileSheds(cfg: Config, db: Db, mp: int, oldPath: Path, newPath: Path, stat: Option<Stat>)
    ensures Sheds(db, MoveFile(cfg, db, mp, oldPath, newPath, stat))
  {
    var after := MoveFile(cfg, db, mp, oldPath, newPath, stat);
    var d1 := DeleteObservation(db, Key(mp, oldPath));
    var d2 := UpsertObservation(d1, Key(mp, newPath), ObservationOf(stat, false, 0));
    match FindByPath(d2, mp, oldPath)
    case None => SameDocsSheds(db, after);
    case Some(moved) =>
      var ids := DocsAt(d2, mp, newPath) - {moved};
      var d3 := Withdraw(d2, ids);
      assert moved in d3.docs && d3.docs[moved].live;
      hide Sheds, Held, Withdraw;
      SameDocsSheds(db, d2);
      WithdrawSheds(d2, ids);
      ShedsTrans(db, d2, d3);
      if !cfg.allow(newPath) {
        WithdrawSheds(d3, {moved});
      } else {
        RepathSheds(d3, after);
      }
      ShedsTrans(db, d3, after);
  }

  lemma MoveDirectorySheds(db: Db, mp: int, oldPath: Path, newPath: Path, stat: Option<Stat>)
    ensures Sheds(db, MoveDirectory(db, mp, oldPath, newPath, stat))
  {
    hide Sheds, Held, Withdraw, MovedKeys;
    var d0 := DeleteObservationSubtree(DeleteObservation(db, Key(mp, newPath)), mp, SubtreePrefix(newPath));
    var ids := DocsUnder(d0, mp, SubtreePrefix(newPath));
    SameDocsSheds(db, d0);
    WithdrawSheds(d0, ids);
    var d1 := ClearDestination(db, mp, newPath);
    ShedsTrans(db, d0, d1);
    var after := MoveDirectory(db, mp, oldPath, newPath, stat);
    RepathSheds(d1, after);
    ShedsTrans(db, d1, after);
  }

  /** Observing a path, and the watermark, touch neither documents nor invalidations. */
  lemma ObserveSheds(cfg: Config, db: Db, path: Path, stat: Option<Stat>, isDir: bool, trigger: Trigger)
    ensures Sheds(db, Observe(cfg, db, path, stat, isDir, trigger))
    ensures Sheds(db, ObserveOnly(cfg, db, path, stat, isDir))
  {
    SameDocsSheds(db, Observe(cfg, db, path, stat, isDir, trigger));
    SameDocsSheds(db, ObserveOnly(cfg, db, path, stat, isDir));
  }

  lemma MoveSheds(cfg: Config, db: Db, ev: Event)
    ensures Sheds(db, ApplyMove(cfg, db, ev))
  {
    hide Sheds, ApplyDelete, Observe, MoveFile, MoveDirectory;
    var from, to := Resolve(cfg, ev.oldPath), Resolve(cfg, ev.path);
    if from.Some? && from == to {
      MoveDirectorySheds(db, to.value, ev.oldPath, ev.path, ev.stat);
      MoveFileSheds(cfg, db, to.value, ev.oldPath, ev.path, ev.stat);
    } else {
      var gone := ApplyDelete(cfg, db, ev.oldPath, ev.isDir);
      DeleteSheds(cfg, db, ev.oldPath, ev.isDir);
      ObserveSheds(cfg, gone, ev.path, ev.stat, ev.isDir, Settled);
      ShedsTrans(db, gone, ApplyMove(cfg, db, ev));
    }
  }

  lemma KindSheds(cfg: Config, db: Db, ev: Event)
    ensures Sheds(db, ApplyKind(cfg, db, ev))
  {
    hide Sheds, ApplyDelete, Observe, ObserveOnly, ApplyMove;
    match ev.kind
    case Delete => DeleteSheds(cfg, db, ev.path, ev.isDir);
    case Move => MoveSheds(cfg, db, ev);
    case CloseWrite => ObserveSheds(cfg, db, ev.path, ev.stat, ev.isDir, Settled);
    case Unknown => SameDocsSheds(db, db);
    case _ => ObserveSheds(cfg, db, ev.path, ev.stat, ev.isDir, Debounced);
  }

  lemma EventSheds(cfg: Config, db: Db, ev: Event)
    ensures Sheds(db, ApplyEvent(cfg, db, ev))
  {
    hide Sheds, ApplyKind;
    var applied := ApplyKind(cfg, db, ev);
    KindSheds(cfg, db, ev);
    SameDocsSheds(db, db);
    SameDocsSheds(applied, SetWatermark(applied, ToInt64(ev.num)));
    ShedsTrans(db, applied, SetWatermark(applied, ToInt64(ev.num)));
  }

  lemma {:induction false} ObserveAllTouchesNoDocument(cfg: Config, db: Db, stream: seq<Scanned>, epoch: int)
    ensures var s := ObserveAll(cfg, db, stream, epoch);
            s.docs == db.docs && s.invalidate == db.invalidate && s.nextDoc == db.nextDoc && s.epoch == db.epoch
            && s.extract == db.extract && s.watermark == db.watermark && s.versions == db.versions
            && s.extractions == db.extractions && s.nextVersion == db.nextVersion
    decreases |stream|
  {
    if stream != [] {
      ObserveAllTouchesNoDocument(cfg, db, stream[..|stream| - 1], epoch);
    }
  }

  lemma ScanSheds(cfg: Config, db: Db, m: Mountpoint, stream: seq<Scanned>)
    ensures Sheds(db, ReconcileRoot(cfg, db, m, stream))
  {
    var begun := NextScanEpoch(db);
    var seen := ObserveAll(cfg, begun, stream, begun.epoch);
    ObserveAllTouchesNoDocument(cfg, begun, stream, begun.epoch);
    var swept := SweepScanEpoch(seen, m.id, m.root, begun.epoch);
    SameDocsSheds(db, swept);
    var ids := DocsAtAny(swept, m.id, Gone(seen, m.id, m.root, begun.epoch));
    WithdrawSheds(swept, ids);
    ShedsTrans(db, swept, Withdraw(swept, ids));
  }

  /** Content version ids come from an identity column, so 0 is never one. */
  ghost predicate RealVersions(db: Db) {
    db.nextVersion > 0 && forall h :: h in db.versions ==> 0 < db.versions[h].id < db.nextVersion
  }

  lemma CreateKeepsHeld(db: Db, mp: int, path: Path, o: Observation)
    requires FreshIds(db)
    ensures Held(CreateDocument(db, mp, path, o.dev, o.ino).docs) == Held(db.docs)
  {
    var d := CreateDocument(db, mp, path, o.dev, o.ino);
    forall j ensures j in Held(d.docs) <==> j in Held(db.docs) {
      HeldMember(d.docs, j);
      HeldMember(db.docs, j);
    }
  }

  /** Identity resolution always yields a live document, and changes nobody's hold on a version. */
  lemma ResolveKeepsHeld(db: Db, mp: int, path: Path, o: Observation, digest: string)
    requires FreshIds(db)
    ensures var (d, doc) := ResolveDocument(db, mp, path, o, digest);
            && Held(d.docs) == Held(db.docs) && doc in d.docs && d.docs[doc].live && FreshIds(d)
            && SameContent(db, d) && d.invalidate == db.invalidate
  {
    var (d, doc) := ResolveDocument(db, mp, path, o, digest);
    hide Held;
    if doc in db.docs {
      RepathKeepsHeld(db.docs, d.docs);
    } else {
      CreateKeepsHeld(db, mp, path, o);
    }
  }

  lemma ResolveKeepsDrawn(db: Db, mp: int, path: Path, o: Observation, digest: string)
    requires VersionsDrawn(db) && db.nextVersion > 0
    ensures VersionsDrawn(ResolveDocument(db, mp, path, o, digest).0)
  {
    hide FindByPath, FindByInode, FindByContent;
  }

  lemma FlipShape(db: Db, doc: nat, superseded: nat, version: nat)
    requires doc in db.docs
    ensures var after := Flip(db, doc, superseded, version);
            && after.docs == db.docs[doc := db.docs[doc].(version := version)]
            && after.invalidate == db.invalidate + (if superseded == 0 then multiset{} else multiset{Invalidation(doc, superseded)})
            && after.nextDoc == db.nextDoc && after.versions == db.versions && after.nextVersion == db.nextVersion
            && after.obs == db.obs && after.epoch == db.epoch && after.watermark == db.watermark
            && after.extract == db.extract + multiset{version} && after.ingest == db.ingest
            && after.extractions == db.extractions + {version}
  {
  }

  /** The writes of a won swap: one pair dropped unless it was never versioned, one pair taken up. */
  lemma FlipAccounts(db: Db, doc: nat, version: nat)
    requires doc in db.docs && db.docs[doc].live && version != 0 && db.docs[doc].version != version
    ensures var after := Flip(db, doc, db.docs[doc].version, version);
            && Accounts(db, after) && Held(after.docs) - Held(db.docs) == {Invalidation(doc, version)}
  {
    hide Held, Flip;
    var dropped, taken := Invalidation(doc, db.docs[doc].version), Invalidation(doc, version);
    var after := Flip(db, doc, dropped.version, version);
    FlipShape(db, doc, dropped.version, version);
    VersionSwap(db.docs, doc, version);
    HeldMember(db.docs, dropped);
    SwappedSets(Held(db.docs), Held(after.docs), dropped, taken);
  }

  lemma SwappedSets(A: set<Invalidation>, B: set<Invalidation>, dropped: Invalidation, taken: Invalidation)
    requires B == A - {dropped} + {taken} && taken !in A
    ensures A - B == A * {dropped} && B - A == {taken}
    ensures multiset(A - B) == if dropped in A then multiset{dropped} else multiset{}
  {
    assert dropped in A ==> A - B == {dropped};
    assert dropped !in A ==> A - B == {};
  }

  ghost predicate Sound(db: Db) {
    FreshIds(db) && RealVersions(db) && VersionsDrawn(db)
  }

  lemma FlipSound(db: Db, doc: nat, superseded: nat, version: nat)
    requires doc in db.docs && Sound(db) && version < db.nextVersion
    ensures Sound(Flip(db, doc, superseded, version))
  {
    FlipShape(db, doc, superseded, version);
    hide Flip;
  }

  lemma VersionSwap(docs: map<nat, Document>, doc: nat, version: nat)
    requires doc in docs && docs[doc].live && version != 0 && docs[doc].version != version
    ensures var taken := Invalidation(doc, version);
            && taken !in Held(docs)
            && Held(docs[doc := docs[doc].(version := version)]) == Held(docs) - {Invalidation(doc, docs[doc].version)} + {taken}
  {
    var after := docs[doc := docs[doc].(version := version)];
    forall j ensures j in Held(after) <==> j in Held(docs) - {Invalidation(doc, docs[doc].version)} + {Invalidation(doc, version)} {
      HeldMember(after, j);
      HeldMember(docs, j);
    }
    HeldMember(docs, Invalidation(doc, version));
  }

  lemma ContentKeepsReal(a: Db, b: Db)
    requires RealVersions(a) && SameContent(a, b)
    ensures RealVersions(b)
  {
  }

  lemma UpsertVersionSound(db: Db, digest: string, size: int)
    requires Sound(db)
    ensures var d := UpsertContentVersion(db, digest, size);
            && Sound(d) && digest in d.versions && 0 < d.versions[digest].id < d.nextVersion
            && d.nextDoc == db.nextDoc && d.docs == db.docs && d.invalidate == db.invalidate
            && d.extract == db.extract && d.nextVersion >= db.nextVersion
  {
  }

  /** Nothing but the winner of a compare-and-swap takes up a version, and one promotion takes up at most one. */
  lemma PromoteAccounts(db: Db, mp: int, path: Path, observed: Observation, digest: string, size: int)
    requires Sound(db)
    ensures var after := Promote(db, mp, path, observed, digest, size);
            && Accounts(db, after) && Sound(after)
            && |Held(after.docs) - Held(db.docs)| <= 1
  {
    var after := Promote(db, mp, path, observed, digest, size);
    var k := Key(mp, path);
    if k !in db.obs || db.obs[k].isDir || !SameFile(observed, db.obs[k]) {
      SameDocsSheds(db, after);
      assert Held(after.docs) - Held(db.docs) == {};
      return;
    }
    hide ResolveDocument, UpsertContentVersion, Held, Flip, RealVersions;
    var (d1, doc) := ResolveDocument(db, mp, path, db.obs[k], digest);
    ResolveKeepsHeld(db, mp, path, db.obs[k], digest);
    NextVersionIsReal(db);
    ResolveKeepsDrawn(db, mp, path, db.obs[k], digest);
    var d2 := UpsertContentVersion(d1, digest, size);
    ContentKeepsReal(db, d1);
    UpsertVersionSound(d1, digest, size);
    var version := d2.versions[digest].id;
    if d2.docs[doc].version == version {
      assert Held(after.docs) - Held(db.docs) == {};
    } else {
      FlipAccounts(d2, doc, version);
      FlipSound(d2, doc, d2.docs[doc].version, version);
    }
  }

  lemma NextVersionIsReal(db: Db)
    requires RealVersions(db)
    ensures db.nextVersion > 0
  {
  }

  lemma StepAccounts(cfg: Config, db: Db, step: Step)
    requires Sound(db)
    ensures Accounts(db, After(cfg, db, step)) && Sound(After(cfg, db, step))
  {
    var after := After(cfg, db, step);
    hide ApplyEvent, ReconcileRoot, Promote, Held;
    match step
    case Applied(ev) =>
      EventSheds(cfg, db, ev);
    case Rescanned(m, stream) =>
      ScanSheds(cfg, db, m, stream);
    case Abandoned => SameDocsSheds(db, after);
    case Marked(at) => SameDocsSheds(db, after);
    case Promoted(mp, path, observed, digest, size) => PromoteAccounts(db, mp, path, observed, digest, size);
  }

  /** What a whole run took up: for each step, the pairs held after it and not before. */
  ghost function TakenUp(cfg: Config, db: Db, steps: seq<Step>): multiset<Invalidation>
    decreases |steps|
  {
    if steps == [] then multiset{}
    else
      var before := Run(cfg, db, steps[..|steps| - 1]);
      TakenUp(cfg, db, steps[..|steps| - 1])
      + multiset(Held(After(cfg, before, steps[|steps| - 1]).docs) - Held(before.docs))
  }

  lemma Balance(before: multiset<Invalidation>, A: set<Invalidation>, B: set<Invalidation>)
    ensures before + multiset(A - B) + multiset(B) == before + multiset(A) + multiset(B - A)
  {
  }

  /** Conservation over every run: each taking-up of a version by a document is, at the end, either still
      held or invalidated, exactly once, and nothing else was ever invalidated. */
  lemma {:induction false} RunConserves(cfg: Config, db: Db, steps: seq<Step>)
    requires Sound(db)
    ensures var end := Run(cfg, db, steps);
            Sound(end)
            && end.invalidate + multiset(Held(end.docs))
               == db.invalidate + multiset(Held(db.docs)) + TakenUp(cfg, db, steps)
    decreases |steps|
  {
    if steps != [] {
      var init, last := steps[..|steps| - 1], steps[|steps| - 1];
      RunConserves(cfg, db, init);
      var before := Run(cfg, db, init);
      StepAccounts(cfg, before, last);
      Balance(before.invalidate, Held(before.docs), Held(After(cfg, before, last).docs));
    }
  }

  /** In the very step in which a version stops being current for its last live holder, some holder's
      invalidation of it is requested. */
  lemma LastHolderInvalidates(cfg: Config, db: Db, step: Step, version: nat)
    requires Sound(db)
    requires exists d :: Invalidation(d, version) in Held(db.docs)
    requires forall d :: Invalidation(d, version) !in Held(After(cfg, db, step).docs)
    ensures exists d :: After(cfg, db, step).invalidate[Invalidation(d, version)] == db.invalidate[Invalidation(d, version)] + 1
  {
    StepAccounts(cfg, db, step);
    var d :| Invalidation(d, version) in Held(db.docs);
    var j := Invalidation(d, version);
    assert After(cfg, db, step).invalidate[j] == db.invalidate[j] + 1;
  }

  /** No run from an empty database ever names version 0, or a pair no document really held. */
  lemma {:induction false} RunNamesRealVersions(cfg: Config, steps: seq<Step>, j: Invalidation)
    requires j in Run(cfg, EMPTY_DB, steps).invalidate
    ensures j.version != 0
    ensures exists n :: 0 <= n < |steps| && Dropped(cfg, steps, n, j)
    decreases |steps|
  {
    hide After, Held;
    if steps != [] {
      var init, last := steps[..|steps| - 1], steps[|steps| - 1];
      RunConserves(cfg, EMPTY_DB, init);
      var before := Run(cfg, EMPTY_DB, init);
      StepAccounts(cfg, before, last);
      if j in before.invalidate {
        RunNamesRealVersions(cfg, init, j);
        var n :| 0 <= n < |init| && Dropped(cfg, init, n, j);
        assert steps[..n] == init[..n] && steps[..n + 1] == init[..n + 1];
        assert Dropped(cfg, steps, n, j);
      } else {
        assert j in Held(before.docs) - Held(Run(cfg, EMPTY_DB, steps).docs);
        HeldMember(before.docs, j);
        assert steps[..|steps|] == steps;
        assert Dropped(cfg, steps, |init|, j);
      }
    }
  }

  /** Step n of the run is where the document stopped holding the version. */
  ghost predicate Dropped(cfg: Config, steps: seq<Step>, n: nat, j: Invalidation)
    requires n < |steps|
  {
    && j in Held(Run(cfg, EMPTY_DB, steps[..n]).docs)
    && j !in Held(Run(cfg, EMPTY_DB, steps[..n + 1]).docs)
  }
}
