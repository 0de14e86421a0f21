/** Over every run a hash and its content version determine each other, which the cache key rests on. */
module Contents {
  import opened Paths
  import opened Tables
  import opened Reconcile
  import opened Ledger
  import ThumbnailKeys

  /** Each version is one hash's. */
  ghost predicate VersionsApart(db: Db) {
    forall g, h :: g in db.versions && h in db.versions && db.versions[g].id == db.versions[h].id ==> g == h
  }

  /** No hash ever loses its version, or gets another. */
  ghost predicate KeepsIds(a: Db, b: Db) {
    forall h :: h in a.versions ==> h in b.versions && b.versions[h].id == a.versions[h].id
  }

  lemma UpsertKeepsIds(db: Db, digest: string, size: int)
    requires RealVersions(db) && VersionsApart(db)
    ensures var d := UpsertContentVersion(db, digest, size);
            digest in d.versions && VersionsApart(d) && KeepsIds(db, d)
  {
  }

  lemma PromoteKeepsIds(db: Db, mp: int, path: Path, observed: Observation, digest: string, size: int)
    requires Sound(db) && VersionsApart(db)
    ensures var after := Promote(db, mp, path, observed, digest, size);
            VersionsApart(after) && KeepsIds(db, after)
  {
    hide VersionsApart, KeepsIds, Flip, ResolveDocument, SameFile, UpsertContentVersion;
    SameVersionsApart(db, db);
    var k := Key(mp, path);
    if k in db.obs && !db.obs[k].isDir && SameFile(observed, db.obs[k]) {
      var (d1, doc) := ResolveDocument(db, mp, path, db.obs[k], digest);
      ResolveKeepsHeld(db, mp, path, db.obs[k], digest);
      SameVersionsApart(db, d1);
      UpsertKeepsIds(d1, digest, size);
      var d2 := UpsertContentVersion(d1, digest, size);
      KeepsIdsTrans(db, d1, d2);
      if doc in d2.docs {
        var after := Flip(d2, doc, d2.docs[doc].version, d2.versions[digest].id);
        FlipShape(d2, doc, d2.docs[doc].version, d2.versions[digest].id);
        SameVersionsApart(d2, after);
        KeepsIdsTrans(db, d2, after);
      }
    }
  }

  lemma SameVersionsApart(a: Db, b: Db)
    requires VersionsApart(a) && b.versions == a.versions
    ensures VersionsApart(b) && KeepsIds(a, b)
  {
  }

  lemma KeepsIdsTrans(a: Db, b: Db, c: Db)
    requires KeepsIds(a, b) && KeepsIds(b, c)
    ensures KeepsIds(a, c)
  {
  }

  lemma StepKeepsIds(cfg: Config, db: Db, step: Step)
    requires Sound(db) && VersionsApart(db)
    ensures VersionsApart(After(cfg, db, step)) && KeepsIds(db, After(cfg, db, step))
  {
    hide ApplyEvent, ReconcileRoot, Promote, VersionsApart, KeepsIds, Held;
    match step {
      case Applied(ev) => EventSheds(cfg, db, ev);
      case Rescanned(m, stream) => ScanSheds(cfg, db, m, stream);
      case Abandoned =>
      case Marked(at) =>
      case Promoted(mp, path, observed, digest, size) => PromoteKeepsIds(db, mp, path, observed, digest, size);
    }
    if !step.Promoted? {
      SameVersionsApart(db, After(cfg, db, step));
    }
  }

  /** Over every run the versions stay apart and every hash keeps its own. */
  lemma {:induction false} RunKeepsIds(cfg: Config, db: Db, steps: seq<Step>)
    requires Sound(db) && VersionsApart(db)
    ensures VersionsApart(Run(cfg, db, steps)) && KeepsIds(db, Run(cfg, db, steps))
    decreases |steps|
  {
    hide After, VersionsApart, KeepsIds, Sound;
    if steps == [] {
      SameVersionsApart(db, db);
    } else {
      var init := steps[..|steps| - 1];
      RunKeepsIds(cfg, db, init);
      RunConserves(cfg, db, init);
      StepKeepsIds(cfg, Run(cfg, db, init), steps[|steps| - 1]);
      KeepsIdsTrans(db, Run(cfg, db, init), Run(cfg, db, steps));
    }
  }

  // ---- what the cache keys rest on ----

  /** A thumbnail request resolved against the tables as they were at some moment of the run. */
  ghost predicate Resolved(cfg: Config, steps: seq<Step>, e: ThumbnailKeys.Entry) {
    exists n :: 0 <= n <= |steps| && ResolvedAt(Run(cfg, EMPTY_DB, steps[..n]), e)
  }

  predicate ResolvedAt(db: Db, e: ThumbnailKeys.Entry) {
    e.hash in db.versions && db.versions[e.hash].id == e.version
  }

  lemma {:induction false} RunSplits(cfg: Config, db: Db, steps: seq<Step>, n: nat)
    requires n <= |steps|
    ensures Run(cfg, db, steps) == Run(cfg, Run(cfg, db, steps[..n]), steps[n..])
    decreases |steps|
  {
    hide After;
    if n == |steps| {
      assert steps[..n] == steps;
    } else {
      var init := steps[..|steps| - 1];
      RunSplits(cfg, db, init, n);
      assert init[..n] == steps[..n] && steps[n..][..|steps[n..]| - 1] == init[n..];
    }
  }

  lemma ResolvedStays(cfg: Config, steps: seq<Step>, e: ThumbnailKeys.Entry)
    requires Resolved(cfg, steps, e)
    ensures ResolvedAt(Run(cfg, EMPTY_DB, steps), e)
  {
    var n :| 0 <= n <= |steps| && ResolvedAt(Run(cfg, EMPTY_DB, steps[..n]), e);
    RunSplits(cfg, EMPTY_DB, steps, n);
    EmptyApart();
    RunKeepsIds(cfg, EMPTY_DB, steps[..n]);
    RunConserves(cfg, EMPTY_DB, steps[..n]);
    RunKeepsIds(cfg, Run(cfg, EMPTY_DB, steps[..n]), steps[n..]);
  }

  lemma EmptyApart()
    ensures Sound(EMPTY_DB) && VersionsApart(EMPTY_DB)
  {
  }

  /** So whatever requests are answered over a run, at whatever moments, version and hash determine each other:
      row key, object key and entry never part. */
  lemma RequestsAreBijective(cfg: Config, steps: seq<Step>, es: set<ThumbnailKeys.Entry>)
    requires forall e :: e in es ==> Resolved(cfg, steps, e)
    ensures ThumbnailKeys.Bijective(es)
  {
    EmptyApart();
    RunKeepsIds(cfg, EMPTY_DB, steps);
    hide Run;
    forall e, f | e in es && f in es ensures e.version == f.version <==> e.hash == f.hash {
      ResolvedStays(cfg, steps, e);
      ResolvedStays(cfg, steps, f);
    }
  }
}
