/** Which document a path belongs to: what identity resolution promises about the one it picks. */
module Identity {
  import opened Common
  import opened Paths
  import opened Tables
  import opened Reconcile
  import opened Ledger
  import opened LivePaths

  /** The document picked stands live at the path with the observation's device and inode; it keeps the
      version it had, or has none if it is new; and no other document is touched. */
  lemma ResolvedDocument(db: Db, mp: int, path: Path, o: Observation, digest: string, id: nat)
    requires UniqueLive(db) && FreshIds(db)
    ensures var (d, doc) := ResolveDocument(db, mp, path, o, digest);
            && LiveAt(d, doc, mp, path) && d.docs[doc].dev == o.dev && d.docs[doc].ino == o.ino
            && d.docs[doc].version == (if doc in db.docs then db.docs[doc].version else 0)
            && (id != doc ==> (id in d.docs <==> id in db.docs) && (id in d.docs ==> d.docs[id] == db.docs[id]))
  {
    ResolveUnique(db, mp, path, o, digest);
    hide UniqueLive;
  }

  // ---- which document ----

  predicate StandsAt(db: Db, mp: int, path: Path, id: nat) {
    id in db.docs && db.docs[id].live && db.docs[id].mp == mp && db.docs[id].path == path
  }

  predicate HoldsInode(db: Db, mp: int, dev: int, ino: int, id: nat) {
    ino != 0 && id in db.docs && db.docs[id].live && db.docs[id].mp == mp && db.docs[id].dev == dev && db.docs[id].ino == ino
  }

  /** A live document of the digest's content whose own path is no longer observed. */
  predicate LostContent(db: Db, mp: int, digest: string, id: nat) {
    && id in db.docs && db.docs[id].live && db.docs[id].mp == mp
    && digest in db.versions && db.docs[id].version == db.versions[digest].id
    && Key(mp, db.docs[id].path) !in db.obs
  }

  /** Identity resolution, read off the tables: the document at the path if one is live there; else the oldest
      with the file's inode; else the oldest lost document with its very content; else a new one. */
  lemma ResolvesInOrder(db: Db, mp: int, path: Path, o: Observation, digest: string)
    ensures var doc := ResolveDocument(db, mp, path, o, digest).1;
            if exists id :: StandsAt(db, mp, path, id) then
              StandsAt(db, mp, path, doc) && forall id :: StandsAt(db, mp, path, id) ==> doc <= id
            else if exists id :: HoldsInode(db, mp, o.dev, o.ino, id) then
              HoldsInode(db, mp, o.dev, o.ino, doc) && forall id :: HoldsInode(db, mp, o.dev, o.ino, id) ==> doc <= id
            else if exists id :: LostContent(db, mp, digest, id) then
              LostContent(db, mp, digest, doc) && forall id :: LostContent(db, mp, digest, id) ==> doc <= id
            else
              doc == db.nextDoc
  {
    FindsByPath(db, mp, path);
    FindsByInode(db, mp, o.dev, o.ino);
    FindsByContent(db, mp, digest);
    hide FindByPath, FindByInode, FindByContent, StandsAt, HoldsInode, LostContent;
  }

  lemma FindsByPath(db: Db, mp: int, path: Path)
    ensures match FindByPath(db, mp, path)
            case None => !exists id :: StandsAt(db, mp, path, id)
            case Some(doc) => StandsAt(db, mp, path, doc) && forall id :: StandsAt(db, mp, path, id) ==> doc <= id
  {
    forall id ensures StandsAt(db, mp, path, id) <==> id in DocsAt(db, mp, path) {}
    hide StandsAt, DocsAt;
  }

  lemma FindsByInode(db: Db, mp: int, dev: int, ino: int)
    ensures ino != 0 ==>
              match FindByInode(db, mp, dev, ino)
              case None => !exists id :: HoldsInode(db, mp, dev, ino, id)
              case Some(doc) => HoldsInode(db, mp, dev, ino, doc) && forall id :: HoldsInode(db, mp, dev, ino, id) ==> doc <= id
    ensures ino == 0 ==> !exists id :: HoldsInode(db, mp, dev, ino, id)
  {
    if ino != 0 {
      forall id ensures HoldsInode(db, mp, dev, ino, id) <==> id in InodeHolders(db, mp, dev, ino) {}
      hide HoldsInode, InodeHolders;
    }
  }

  lemma FindsByContent(db: Db, mp: int, digest: string)
    ensures match FindByContent(db, mp, digest)
            case None => !exists id :: LostContent(db, mp, digest, id)
            case Some(doc) => LostContent(db, mp, digest, doc) && forall id :: LostContent(db, mp, digest, id) ==> doc <= id
  {
    forall id ensures LostContent(db, mp, digest, id) <==> id in ContentHolders(db, mp, digest) {}
    hide LostContent, ContentHolders;
  }

  /** A copy is not a move: a document is taken from a path that still exists only by its own inode. */
  lemma CopyIsNotAMove(db: Db, mp: int, path: Path, o: Observation, digest: string)
    requires FreshIds(db)
    ensures var doc := ResolveDocument(db, mp, path, o, digest).1;
            doc in db.docs && db.docs[doc].path != path && Key(mp, db.docs[doc].path) in db.obs
            ==> o.ino != 0 && db.docs[doc].dev == o.dev && db.docs[doc].ino == o.ino
  {
    if FindByPath(db, mp, path).Some? {
      assert LiveAt(db, FindByPath(db, mp, path).value, mp, path);
    }
  }

  /** A promotion leaves each other path the documents that stood there, but for the one it settles on, and
      queues nothing. */
  lemma PromotionTakesOnlyItsOwn(db: Db, mp: int, path: Path, observed: Observation, digest: string, size: int, k: Key)
    requires UniqueLive(db) && FreshIds(db) && k != Key(mp, path)
    requires Key(mp, path) in db.obs && !db.obs[Key(mp, path)].isDir && SameFile(observed, db.obs[Key(mp, path)])
    ensures var after := Promote(db, mp, path, observed, digest, size);
            && DocsAt(after, k.mp, k.path) == DocsAt(db, k.mp, k.path) - {ResolveDocument(db, mp, path, db.obs[Key(mp, path)], digest).1}
            && after.ingest == db.ingest && after.obs == db.obs
  {
    var o := db.obs[Key(mp, path)];
    var (d1, doc) := ResolveDocument(db, mp, path, o, digest);
    var after := Promote(db, mp, path, observed, digest, size);
    PromoteKeepsPlaces(db, mp, path, observed, digest, size);
    ResolvedDocument(db, mp, path, o, digest, doc);
    ResolveKeepsIngest(db, mp, path, o, digest);
    hide ResolveDocument, SameFile, UniqueLive, Promote, FreshIds;
    forall id ensures LiveAt(after, id, k.mp, k.path) <==> LiveAt(db, id, k.mp, k.path) && id != doc {
      ResolvedDocument(db, mp, path, o, digest, id);
      assert LiveAt(after, id, k.mp, k.path) == LiveAt(d1, id, k.mp, k.path);
    }
  }

  /** After resolution a promotion re-paths nothing. */
  lemma PromoteKeepsPlaces(db: Db, mp: int, path: Path, observed: Observation, digest: string, size: int)
    requires Key(mp, path) in db.obs && !db.obs[Key(mp, path)].isDir && SameFile(observed, db.obs[Key(mp, path)])
    ensures var d1 := ResolveDocument(db, mp, path, db.obs[Key(mp, path)], digest).0;
            var after := Promote(db, mp, path, observed, digest, size);
            && after.ingest == d1.ingest && after.obs == d1.obs
            && forall id, m, p :: LiveAt(after, id, m, p) == LiveAt(d1, id, m, p)
  {
    hide ResolveDocument, SameFile, Flip;
    var (d1, doc) := ResolveDocument(db, mp, path, db.obs[Key(mp, path)], digest);
    var d2 := UpsertContentVersion(d1, digest, size);
    if doc in d2.docs {
      FlipShape(d2, doc, d2.docs[doc].version, d2.versions[digest].id);
    }
  }

  lemma ResolveKeepsIngest(db: Db, mp: int, path: Path, o: Observation, digest: string)
    ensures var d := ResolveDocument(db, mp, path, o, digest).0;
            d.ingest == db.ingest && d.obs == db.obs
  {
  }

  /** What the promoted file's inode leads to: the path is free and the least live document with that inode
      stands at another path, which is still observed. */
  predicate TakesHardLink(db: Db, mp: int, path: Path, o: Observation) {
    && DocsAt(db, mp, path) == {} && o.ino != 0
    && var holder := FindByInode(db, mp, o.dev, o.ino);
       holder.Some? && holder.value in db.docs && db.docs[holder.value].path != path && Key(mp, db.docs[holder.value].path) in db.obs
  }

  /** A promotion leaves every other observed path its live document if and only if it does not take one by its
      inode: the second of two hard links takes the first one's document. */
  lemma PromotionKeepsOthersIff(db: Db, mp: int, path: Path, observed: Observation, digest: string, size: int)
    requires UniqueLive(db) && FreshIds(db)
    requires Key(mp, path) in db.obs && !db.obs[Key(mp, path)].isDir && SameFile(observed, db.obs[Key(mp, path)])
    ensures var after := Promote(db, mp, path, observed, digest, size);
            (forall k :: KeepsADocument(db, after, Key(mp, path), k)) <==> !TakesHardLink(db, mp, path, db.obs[Key(mp, path)])
  {
    var o := db.obs[Key(mp, path)];
    var after := Promote(db, mp, path, observed, digest, size);
    var doc := ResolveDocument(db, mp, path, o, digest).1;
    hide Promote, SameFile;
    if TakesHardLink(db, mp, path, o) {
      InodeResolves(db, mp, path, o, digest);
      var k := Key(mp, db.docs[doc].path);
      assert LiveAt(db, doc, k.mp, k.path);
      PromotionTakesOnlyItsOwn(db, mp, path, observed, digest, size, k);
      UniqueAt(db, doc, k.mp, k.path);
      assert !KeepsADocument(db, after, Key(mp, path), k);
    } else {
      forall k ensures KeepsADocument(db, after, Key(mp, path), k) {
        if k != Key(mp, path) && k in db.obs && DocsAt(db, k.mp, k.path) != {} {
          PromotionTakesOnlyItsOwn(db, mp, path, observed, digest, size, k);
          NotTaken(db, mp, path, o, digest, k);
        }
      }
    }
  }

  predicate KeepsADocument(db: Db, after: Db, promoted: Key, k: Key) {
    k != promoted && k in db.obs && DocsAt(db, k.mp, k.path) != {} ==> DocsAt(after, k.mp, k.path) != {}
  }

  lemma InodeResolves(db: Db, mp: int, path: Path, o: Observation, digest: string)
    requires DocsAt(db, mp, path) == {} && o.ino != 0 && FindByInode(db, mp, o.dev, o.ino).Some?
    ensures var doc := ResolveDocument(db, mp, path, o, digest).1;
            FindByInode(db, mp, o.dev, o.ino) == Some(doc) && doc in db.docs && db.docs[doc].live && db.docs[doc].mp == mp
  {
    assert FindByInode(db, mp, o.dev, o.ino).value in InodeHolders(db, mp, o.dev, o.ino);
  }

  lemma NotTaken(db: Db, mp: int, path: Path, o: Observation, digest: string, k: Key)
    requires FreshIds(db) && !TakesHardLink(db, mp, path, o) && k != Key(mp, path) && k in db.obs
    ensures ResolveDocument(db, mp, path, o, digest).1 !in DocsAt(db, k.mp, k.path)
  {
    var doc := ResolveDocument(db, mp, path, o, digest).1;
    if FindByPath(db, mp, path).Some? {
      assert LiveAt(db, FindByPath(db, mp, path).value, mp, path);
    } else {
      assert DocsAt(db, mp, path) == {};
      if o.ino != 0 && FindByInode(db, mp, o.dev, o.ino).Some? {
        InodeResolves(db, mp, path, o, digest);
      }
    }
  }

  /** Two hard links: the first has its document, the second is promoted. */
  function HardLinks(o: Observation): Db {
    EMPTY_DB.(obs := map[Key(1, "/r/a") := o, Key(1, "/r/b") := o],
             docs := map[1 := Document(1, "/r/a", o.dev, o.ino, 0, true)], nextDoc := 2)
  }

  /** Promoting the second leaves the first, still observed, with no live document and no job queued for it. */
  lemma SecondHardLinkTakesTheDocument(o: Observation, digest: string, size: int)
    requires o.ino != 0 && !o.isDir
    ensures var db := HardLinks(o);
            var after := Promote(db, 1, "/r/b", o, digest, size);
            && Key(1, "/r/a") in after.obs && DocsAt(after, 1, "/r/a") == {} && after.ingest == multiset{}
  {
    var db := HardLinks(o);
    assert forall i, mp, p :: LiveAt(db, i, mp, p) ==> i == 1;
    assert DocsAt(db, 1, "/r/b") == {};
    assert DocsAt(db, 1, "/r/a") == {1};
    assert InodeHolders(db, 1, o.dev, o.ino) == {1};
    assert FindByInode(db, 1, o.dev, o.ino).Some?;
    InodeResolves(db, 1, "/r/b", o, digest);
    PromotionTakesOnlyItsOwn(db, 1, "/r/b", o, digest, size, Key(1, "/r/a"));
  }

  /** A file that turns up at a path of its own keeps its document: the one live document with its inode. */
  lemma InodeKeepsIdentity(db: Db, mp: int, path: Path, o: Observation, digest: string, id: nat)
    requires o.ino != 0 && DocsAt(db, mp, path) == {}
    requires HasInode(db, id, mp, o.dev, o.ino) && forall j :: HasInode(db, j, mp, o.dev, o.ino) ==> j == id
    ensures ResolveDocument(db, mp, path, o, digest).1 == id
  {
    assert id in InodeHolders(db, mp, o.dev, o.ino);
    assert FindByPath(db, mp, path).None?;
  }

  /** The wire's unsigned device and inode survive the narrowing: two stats name the same file in the tables
      exactly when they do on the wire, or one of them names none. */
  lemma SameFileAsOnTheWire(a: Stat, b: Stat, isDir: bool, epoch: int)
    requires a.dev < TWO_TO_64 && a.ino < TWO_TO_64 && b.dev < TWO_TO_64 && b.ino < TWO_TO_64
    ensures SameFile(ObservationOf(Some(a), isDir, epoch), ObservationOf(Some(b), isDir, epoch))
       <==> a.ino == 0 || b.ino == 0 || (a.dev == b.dev && a.ino == b.ino)
  {
    NarrowingIsInjective(a.dev, b.dev);
    NarrowingIsInjective(a.ino, b.ino);
    NarrowingIsInjective(a.ino, 0);
    NarrowingIsInjective(b.ino, 0);
    hide ToInt64;
  }

  lemma NarrowingIsInjective(x: nat, y: nat)
    requires x < TWO_TO_64 && y < TWO_TO_64
    ensures ToInt64(x) == ToInt64(y) <==> x == y
    ensures ToInt64(0) == 0
  {
  }
}
