/** One attempt of a promotion, in the two halves other transactions can come between: the statement that finds
    the document and its version, and the writes. */
module Attempts {
  import opened Common
  import opened Paths
  import opened Tables
  import opened Reconcile
  import opened Ledger
  import opened LivePaths

  /** What the document's row is to be rewritten to. */
  datatype Place = Place(path: Path, dev: int, ino: int)

  /** What identity resolution found; nothing is locked by finding it. */
  datatype Target =
    | Found(doc: nat, seen: nat, place: Option<Place>)
    | Absent(mp: int, path: Path, dev: int, ino: int)

  /** Refused: the live-path index rejects the row, and the job ends with that error. */
  datatype Outcome = Lost | Refused | Unchanged | Won

  function Look(db: Db, mp: int, path: Path, o: Observation, digest: string): Target {
    var here := Some(Place(path, o.dev, o.ino));
    var at := FindByPath(db, mp, path);
    var byInode := if o.ino != 0 then FindByInode(db, mp, o.dev, o.ino) else None;
    var byContent := FindByContent(db, mp, digest);
    if at.Some? then
      var d := db.docs[at.value];
      Found(at.value, d.version, if d.dev != o.dev || d.ino != o.ino then here else None)
    else if byInode.Some? then Found(byInode.value, db.docs[byInode.value].version, here)
    else if byContent.Some? then Found(byContent.value, db.docs[byContent.value].version, here)
    else Absent(mp, path, o.dev, o.ino)
  }

  function Placed(db: Db, doc: nat, place: Option<Place>): Db {
    match place
    case None => db
    case Some(p) => MoveDocument(db, doc, p.path, p.dev, p.ino)
  }

  /** Another live document stands at the place. A tombstone is not in the index and can be put anywhere. */
  predicate Taken(db: Db, doc: nat, place: Option<Place>)
    requires doc in db.docs
  {
    place.Some? && db.docs[doc].live && DocsAt(db, db.docs[doc].mp, place.value.path) - {doc} != {}
  }

  /** The writes on a document whose version was read as `seen`, on the state they find. A lost swap is rolled
      back, the new place with it; only the version id it may have drawn stays drawn. */
  function Swap(db: Db, doc: nat, seen: nat, place: Option<Place>, digest: string, size: int): (Db, Outcome)
    requires doc in db.docs
  {
    if Taken(db, doc, place) then (db, Refused)
    else
      var d := UpsertContentVersion(Placed(db, doc, place), digest, size);
      var version := d.versions[digest].id;
      if seen == version then (d, Unchanged)
      else if d.docs[doc].version != seen then (db.(nextVersion := d.nextVersion), Lost)
      else (Flip(d, doc, seen, version), Won)
  }

  predicate Writable(db: Db, target: Target) {
    target.Found? ==> target.doc in db.docs
  }

  function Write(db: Db, target: Target, digest: string, size: int): (Db, Outcome)
    requires Writable(db, target)
  {
    match target
    case Found(doc, seen, place) => Swap(db, doc, seen, place, digest, size)
    case Absent(mp, path, dev, ino) =>
      if DocsAt(db, mp, path) != {} then (db.(nextDoc := db.nextDoc + 1), Refused)
      else Swap(CreateDocument(db, mp, path, dev, ino), db.nextDoc, 0, None, digest, size)
  }

  predicate Proceeds(db: Db, k: Key, observed: Observation) {
    k in db.obs && !db.obs[k].isDir && SameFile(observed, db.obs[k])
  }

  datatype Verdict = Finished | Raced | Failed

  function Judged(outcome: Outcome): Verdict {
    match outcome
    case Lost => Raced
    case Refused => Failed
    case _ => Finished
  }

  /** An attempt that reads db and finds, when it writes, what others have made of it since. */
  function Attempt(db: Db, committed: Db, mp: int, path: Path, observed: Observation, digest: string, size: int): (Db, Verdict)
    requires Possible(db, committed, mp, path, digest)
  {
    var k := Key(mp, path);
    if !Proceeds(db, k, observed) then (db, Finished)
    else
      var (after, outcome) := Write(committed, Look(db, mp, path, db.obs[k], digest), digest, size);
      (after, Judged(outcome))
  }

  /** Rows are never deleted. */
  predicate Possible(db: Db, committed: Db, mp: int, path: Path, digest: string) {
    Key(mp, path) in db.obs ==> Writable(committed, Look(db, mp, path, db.obs[Key(mp, path)], digest))
  }

  // ---- the two halves and identity resolution ----

  lemma LookFindsLive(db: Db, mp: int, path: Path, o: Observation, digest: string)
    ensures var target := Look(db, mp, path, o, digest);
            target.Found? ==>
              && target.doc in db.docs && db.docs[target.doc].live && db.docs[target.doc].mp == mp
              && target.seen == db.docs[target.doc].version
  {
  }

  lemma LookResolves(db: Db, mp: int, path: Path, o: Observation, digest: string)
    ensures ResolveDocument(db, mp, path, o, digest)
         == match Look(db, mp, path, o, digest)
            case Found(doc, _, place) => (Placed(db, doc, place), doc)
            case Absent(_, _, _, _) => (CreateDocument(db, mp, path, o.dev, o.ino), db.nextDoc)
  {
    hide FindByInode, FindByContent;
  }

  /** With nothing committed in between, the index refuses nothing. */
  lemma NothingTaken(db: Db, mp: int, path: Path, o: Observation, digest: string)
    requires UniqueLive(db)
    ensures match Look(db, mp, path, o, digest)
            case Found(doc, _, place) => doc in db.docs && !Taken(db, doc, place)
            case Absent(_, _, _, _) => DocsAt(db, mp, path) == {}
  {
    LookFindsLive(db, mp, path, o, digest);
    hide FindByInode, FindByContent;
    match FindByPath(db, mp, path)
    case None =>
    case Some(id) =>
      assert LiveAt(db, id, mp, path);
      UniqueAt(db, id, mp, path);
  }

  /** With nothing committed in between, an attempt is the atomic promotion, and settles. */
  lemma UncontendedAttemptIsPromote(db: Db, mp: int, path: Path, observed: Observation, digest: string, size: int)
    requires UniqueLive(db) && FreshIds(db)
    ensures Possible(db, db, mp, path, digest)
    ensures Attempt(db, db, mp, path, observed, digest, size) == (Promote(db, mp, path, observed, digest, size), Finished)
  {
    var k := Key(mp, path);
    if k in db.obs {
      LookFindsLive(db, mp, path, db.obs[k], digest);
    }
    if Proceeds(db, k, observed) {
      LookResolves(db, mp, path, db.obs[k], digest);
      NothingTaken(db, mp, path, db.obs[k], digest);
      hide Look, ResolveDocument, Flip, SameFile, DocsAt;
    }
  }

  // ---- what the writes do ----

  /** Only where documents stand differs. */
  predicate SameVersions(a: Db, b: Db) {
    a.docs.Keys == b.docs.Keys && forall id :: id in a.docs ==> a.docs[id].version == b.docs[id].version && a.docs[id].live == b.docs[id].live
  }

  lemma PlacedSound(db: Db, doc: nat, place: Option<Place>)
    requires Sound(db) && doc in db.docs
    ensures var d := Placed(db, doc, place);
            && Sound(d) && SameVersions(db, d) && Held(d.docs) == Held(db.docs) && d == db.(docs := d.docs)
            && forall id :: id in db.docs && id != doc ==> d.docs[id] == db.docs[id]
  {
    RepathKeepsHeld(db.docs, Placed(db, doc, place).docs);
    hide Held;
  }

  lemma DrawnStaysSound(db: Db, n: nat)
    requires Sound(db) && n >= db.nextVersion
    ensures Sound(db.(nextVersion := n))
  {
  }

  lemma SwapSound(db: Db, doc: nat, seen: nat, place: Option<Place>, digest: string, size: int)
    requires Sound(db) && doc in db.docs
    ensures var (after, outcome) := Swap(db, doc, seen, place, digest, size);
            && Sound(after) && after.docs.Keys == db.docs.Keys && after.docs[doc].live == db.docs[doc].live
            && (forall id :: id in db.docs && id != doc ==> after.docs[id] == db.docs[id])
            && (outcome == Won ==> db.docs[doc].version == seen != after.docs[doc].version)
            && (outcome != Won ==> SameVersions(db, after))
            && (outcome == Lost ==> after == db.(nextVersion := after.nextVersion) && db.docs[doc].version != seen)
            && (outcome == Refused ==> after == db)
            && after.invalidate == db.invalidate
                 + (if outcome == Won && seen != 0 then multiset{Invalidation(doc, seen)} else multiset{})
            && after.extract == db.extract + (if outcome == Won then multiset{after.docs[doc].version} else multiset{})
  {
    hide Flip, Placed, Taken, Held, Sound, UpsertContentVersion;
    var p := Placed(db, doc, place);
    PlacedSound(db, doc, place);
    var d := UpsertContentVersion(p, digest, size);
    UpsertVersionSound(p, digest, size);
    DrawnStaysSound(db, d.nextVersion);
    if seen != d.versions[digest].id && d.docs[doc].version == seen {
      FlipShape(d, doc, seen, d.versions[digest].id);
      FlipSound(d, doc, seen, d.versions[digest].id);
    }
  }

  /** A write that is lost or refused leaves the tables as they were: it draws a version id at most, and one
      document id exactly when it was to insert. */
  lemma UndoneWrite(db: Db, target: Target, digest: string, size: int)
    requires Sound(db) && Writable(db, target)
    ensures var (after, outcome) := Write(db, target, digest, size);
            outcome == Lost || outcome == Refused ==>
              && after == db.(nextDoc := after.nextDoc, nextVersion := after.nextVersion)
              && after.nextDoc == db.nextDoc + (if target.Absent? then 1 else 0)
              && db.nextVersion <= after.nextVersion <= db.nextVersion + 1
  {
    hide Flip, Sound;
  }

  /** The row the swap leaves: where it was to be put, unless it was lost or refused, and with the version of the
      content if it won, which is then claimed for extraction. */
  lemma SwapOfDocument(db: Db, doc: nat, seen: nat, place: Option<Place>, digest: string, size: int)
    requires Sound(db) && doc in db.docs
    ensures var (after, outcome) := Swap(db, doc, seen, place, digest, size);
            var d := db.docs[doc];
            var there := if place.Some? then d.(path := place.value.path, dev := place.value.dev, ino := place.value.ino) else d;
            && doc in after.docs
            && (outcome == Won || outcome == Unchanged ==> digest in after.versions && after.versions[digest].size == size)
            && (outcome == Won ==>
                  && after.docs[doc] == there.(version := after.versions[digest].id)
                  && after.extractions == db.extractions + {after.versions[digest].id})
            && (outcome == Unchanged ==> seen == after.versions[digest].id && after.docs[doc] == there && after.extractions == db.extractions)
            && (outcome == Lost || outcome == Refused ==> after.docs[doc] == d && after.versions == db.versions)
            && (outcome == Refused <==>
                  d.live && place.Some?
                  && exists id :: id != doc && id in db.docs && db.docs[id].live && db.docs[id].mp == d.mp && db.docs[id].path == place.value.path)
  {
    TakenIs(db, doc, place);
    PlacedRow(db, doc, place);
    hide FreshIds, VersionsDrawn, RealVersions, Taken, Placed, Flip;
    var d := UpsertContentVersion(Placed(db, doc, place), digest, size);
    FlipShape(d, doc, seen, d.versions[digest].id);
  }

  lemma PlacedRow(db: Db, doc: nat, place: Option<Place>)
    requires doc in db.docs
    ensures var d := db.docs[doc];
            var after := Placed(db, doc, place);
            && doc in after.docs
            && after.docs[doc] == (if place.Some? then d.(path := place.value.path, dev := place.value.dev, ino := place.value.ino) else d)
            && after == db.(docs := after.docs)
  {
  }

  lemma TakenIs(db: Db, doc: nat, place: Option<Place>)
    requires doc in db.docs
    ensures Taken(db, doc, place)
       <==> db.docs[doc].live && place.Some?
            && exists id :: id != doc && id in db.docs && db.docs[id].live && db.docs[id].mp == db.docs[doc].mp
                            && db.docs[id].path == place.value.path
  {
    if place.Some? {
      var s := DocsAt(db, db.docs[doc].mp, place.value.path);
      if id :| id != doc && id in db.docs && db.docs[id].live && db.docs[id].mp == db.docs[doc].mp && db.docs[id].path == place.value.path {
        assert id in s - {doc};
      }
      if id :| id in s - {doc} {
        assert id != doc && id in db.docs && db.docs[id].live && db.docs[id].mp == db.docs[doc].mp && db.docs[id].path == place.value.path;
      }
    }
  }

  /** The swap wins: the index accepts the place, the version is still the one read, and it is not already that
      of the content. */
  predicate Wins(db: Db, doc: nat, seen: nat, place: Option<Place>, digest: string)
    requires doc in db.docs
  {
    !Taken(db, doc, place) && db.docs[doc].version == seen && !(digest in db.versions && db.versions[digest].id == seen)
  }

  lemma WinsIff(db: Db, doc: nat, seen: nat, place: Option<Place>, digest: string, size: int)
    requires Sound(db) && doc in db.docs
    ensures Swap(db, doc, seen, place, digest, size).1 == Won <==> Wins(db, doc, seen, place, digest)
  {
    hide Flip, FreshIds, Taken;
  }

  /** A swap keeps the account of invalidations, one for each version a live document lets go of and no other,
      exactly unless it wins on a tombstone that has a version. */
  lemma SwapAccountsIff(db: Db, doc: nat, seen: nat, place: Option<Place>, digest: string, size: int)
    requires Sound(db) && doc in db.docs
    ensures Accounts(db, Swap(db, doc, seen, place, digest, size).0)
       <==> db.docs[doc].live || seen == 0 || !Wins(db, doc, seen, place, digest)
  {
    SwapSound(db, doc, seen, place, digest, size);
    WinsIff(db, doc, seen, place, digest, size);
    hide Swap, Held, Wins;
    var (after, outcome) := Swap(db, doc, seen, place, digest, size);
    if outcome != Won {
      RepathKeepsHeld(db.docs, after.docs);
      assert Held(db.docs) - Held(after.docs) == {};
    } else if db.docs[doc].live {
      WonOnALiveDocument(db, doc, seen, place, digest, size);
    } else {
      WonOnATombstone(db, doc, seen, place, digest, size);
      assert Held(db.docs) - Held(after.docs) == {};
      assert seen != 0 ==> after.invalidate[Invalidation(doc, seen)] == db.invalidate[Invalidation(doc, seen)] + 1;
    }
  }

  lemma WonOnALiveDocument(db: Db, doc: nat, seen: nat, place: Option<Place>, digest: string, size: int)
    requires Sound(db) && doc in db.docs && db.docs[doc].live && Swap(db, doc, seen, place, digest, size).1 == Won
    ensures Accounts(db, Swap(db, doc, seen, place, digest, size).0)
  {
    hide Flip, Held, FreshIds, Placed, Taken;
    var p := Placed(db, doc, place);
    PlacedSound(db, doc, place);
    var d := UpsertContentVersion(p, digest, size);
    UpsertVersionSound(p, digest, size);
    FlipAccounts(d, doc, d.versions[digest].id);
  }

  lemma WonOnATombstone(db: Db, doc: nat, seen: nat, place: Option<Place>, digest: string, size: int)
    requires Sound(db) && doc in db.docs && !db.docs[doc].live && Swap(db, doc, seen, place, digest, size).1 == Won
    ensures Held(Swap(db, doc, seen, place, digest, size).0.docs) == Held(db.docs)
  {
    SwapSound(db, doc, seen, place, digest, size);
    hide Swap, Held, Sound;
    var after := Swap(db, doc, seen, place, digest, size).0;
    forall j ensures j in Held(after.docs) <==> j in Held(db.docs) {
      HeldMember(after.docs, j);
      HeldMember(db.docs, j);
    }
  }

  /** And it leaves a tombstone a version it did not have exactly when it wins on one. */
  lemma SwapRevisesATombstoneIff(db: Db, doc: nat, seen: nat, place: Option<Place>, digest: string, size: int)
    requires Sound(db) && doc in db.docs
    ensures var after := Swap(db, doc, seen, place, digest, size).0;
            && doc in after.docs
            && (!after.docs[doc].live && after.docs[doc].version != db.docs[doc].version
                <==> !db.docs[doc].live && Wins(db, doc, seen, place, digest))
  {
    SwapSound(db, doc, seen, place, digest, size);
    WinsIff(db, doc, seen, place, digest, size);
  }

  lemma CreatedSound(db: Db, mp: int, path: Path, dev: int, ino: int)
    requires Sound(db)
    ensures Sound(CreateDocument(db, mp, path, dev, ino)) && Sound(db.(nextDoc := db.nextDoc + 1))
  {
  }

  /** b has left the document and its invalidations as a has them, and dropped no extraction. */
  ghost predicate Spares(a: Db, b: Db, id: nat) {
    && id in a.docs && id in b.docs && b.docs[id] == a.docs[id] && a.extract <= b.extract
    && forall v :: b.invalidate[Invalidation(id, v)] == a.invalidate[Invalidation(id, v)]
  }

  lemma SwapSpares(db: Db, doc: nat, seen: nat, place: Option<Place>, digest: string, size: int, id: nat)
    requires Sound(db) && doc in db.docs && id in db.docs && id != doc
    ensures Spares(db, Swap(db, doc, seen, place, digest, size).0, id)
  {
    SwapSound(db, doc, seen, place, digest, size);
    hide Swap, Sound, SameVersions;
  }

  /** The writes of an attempt that settled on another document spare this one. */
  lemma WriteSpares(db: Db, target: Target, digest: string, size: int, id: nat)
    requires Sound(db) && Writable(db, target) && id in db.docs && !(target.Found? && target.doc == id)
    ensures var after := Write(db, target, digest, size).0;
            Sound(after) && Spares(db, after, id)
  {
    assert FreshIds(db);
    hide Swap, Sound, SameVersions, Accounts;
    match target
    case Found(doc, seen, place) =>
      SwapSound(db, doc, seen, place, digest, size);
      SwapSpares(db, doc, seen, place, digest, size, id);
    case Absent(mp, path, dev, ino) =>
      CreatedSound(db, mp, path, dev, ino);
      if DocsAt(db, mp, path) == {} {
        var d := CreateDocument(db, mp, path, dev, ino);
        SwapSound(d, db.nextDoc, 0, None, digest, size);
        SwapSpares(d, db.nextDoc, 0, None, digest, size, id);
        hide Write;
      }
  }

  // ---- live paths ----

  lemma SwapUnique(db: Db, doc: nat, seen: nat, place: Option<Place>, digest: string, size: int)
    requires UniqueLive(db) && doc in db.docs
    ensures UniqueLive(Swap(db, doc, seen, place, digest, size).0)
  {
    hide UniqueLive, Flip;
    if !Taken(db, doc, place) {
      PlacedUnique(db, doc, place);
      hide Placed, Taken;
      var d := UpsertContentVersion(Placed(db, doc, place), digest, size);
      SameDocsUnique(Placed(db, doc, place), d);
      SameDocsUnique(db, db.(nextVersion := d.nextVersion));
      FlipUnique(d, doc, seen, d.versions[digest].id);
    }
  }

  lemma PlacedUnique(db: Db, doc: nat, place: Option<Place>)
    requires UniqueLive(db) && doc in db.docs && !Taken(db, doc, place)
    ensures UniqueLive(Placed(db, doc, place))
  {
    if place.Some? {
      var p := place.value;
      if db.docs[doc].live {
        OnlyOne(DocsAt(db, db.docs[doc].mp, p.path), doc);
        forall j | LiveAt(db, j, db.docs[doc].mp, p.path) ensures j == doc {
          assert j in DocsAt(db, db.docs[doc].mp, p.path);
        }
        MoveUnique(db, doc, p.path, p.dev, p.ino);
      } else {
        TombstoneMoveUnique(db, doc, p);
      }
    }
  }

  lemma OnlyOne(s: set<nat>, x: nat)
    requires s - {x} == {}
    ensures s <= {x}
  {
    assert s <= (s - {x}) + {x};
  }

  lemma TombstoneMoveUnique(db: Db, doc: nat, p: Place)
    requires UniqueLive(db) && doc in db.docs && !db.docs[doc].live
    ensures UniqueLive(MoveDocument(db, doc, p.path, p.dev, p.ino))
  {
    var after := MoveDocument(db, doc, p.path, p.dev, p.ino);
    forall i, j, mp, path | LiveAt(after, i, mp, path) && LiveAt(after, j, mp, path) ensures i == j {
      assert LiveAt(db, i, mp, path) && LiveAt(db, j, mp, path);
    }
  }

  /** Whatever it finds, an attempt leaves live paths unique. */
  lemma WriteUnique(db: Db, target: Target, digest: string, size: int)
    requires UniqueLive(db) && FreshIds(db) && Writable(db, target)
    ensures UniqueLive(Write(db, target, digest, size).0)
  {
    hide UniqueLive, Swap;
    match target
    case Found(doc, seen, place) => SwapUnique(db, doc, seen, place, digest, size);
    case Absent(mp, path, dev, ino) =>
      if DocsAt(db, mp, path) == {} {
        forall j ensures !LiveAt(db, j, mp, path) {
          assert j !in DocsAt(db, mp, path);
        }
        CreateUnique(db, mp, path, dev, ino);
        SwapUnique(CreateDocument(db, mp, path, dev, ino), db.nextDoc, 0, None, digest, size);
      } else {
        SameDocsUnique(db, Write(db, target, digest, size).0);
      }
  }
}
