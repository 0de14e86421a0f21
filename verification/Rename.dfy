/** A directory rename preserves the identity of everything beneath it, and can be undone. */
module Rename {
  import opened Common
  import opened Paths
  import opened Tables
  import opened Reconcile
  import opened ObservedPaths

  /** One document across a rename of oldPath to newPath: what was beneath the destination is overwritten,
      what was beneath the source follows it with its identity, version and path suffix, the rest stays. */
  lemma RenameOfDocument(db: Db, mp: int, oldPath: Path, newPath: Path, stat: Option<Stat>, id: nat)
    requires id in db.docs && db.docs[id].live
    ensures var o, n := SubtreePrefix(oldPath), SubtreePrefix(newPath);
            var d := db.docs[id];
            var after := MoveDirectory(db, mp, oldPath, newPath, stat);
            && id in after.docs
            && after.docs[id] ==
               if d.mp == mp && n <= d.path then d.(live := false)
               else if d.mp == mp && o <= d.path then d.(path := n + d.path[|o|..])
               else d
  {
    var n := SubtreePrefix(newPath);
    var d := db.docs[id];
    assert LiveUnder(db, id, mp, n) <==> d.mp == mp && n <= d.path;
    hide MovedKeys;
  }

  /** No job asks for a renamed file to be read again: the only work is invalidating what was overwritten. */
  lemma RenameWork(db: Db, mp: int, oldPath: Path, newPath: Path, stat: Option<Stat>)
    ensures var after := MoveDirectory(db, mp, oldPath, newPath, stat);
            && after.ingest == db.ingest && after.extract == db.extract
            && after.invalidate == db.invalidate + multiset(Owed(db, DocsUnder(db, mp, SubtreePrefix(newPath))))
  {
    var n := SubtreePrefix(newPath);
    var d2 := DeleteObservationSubtree(DeleteObservation(db, Key(mp, newPath)), mp, n);
    assert DocsUnder(d2, mp, n) == DocsUnder(db, mp, n);
    SameOwed(db, d2, DocsUnder(db, mp, n));
    hide Owed, MovedKeys, DocsUnder;
  }

  lemma SameOwed(a: Db, b: Db, ids: set<nat>)
    requires a.docs == b.docs
    ensures Owed(a, ids) == Owed(b, ids)
  {
    forall j ensures j in Owed(a, ids) <==> j in Owed(b, ids) {
    }
  }

  /** Neither directory lies inside the other, and nothing stands or is observed beneath the destination. */
  predicate Undoable(db: Db, mp: int, oldPath: Path, newPath: Path) {
    var o, n := SubtreePrefix(oldPath), SubtreePrefix(newPath);
    && !(o <= n) && !(n <= o)
    && DocsUnder(db, mp, n) == {}
    && forall k :: k in db.obs ==> !Under(k, mp, n)
  }

  lemma PrefixesApart(o: Path, n: Path, p: Path)
    requires !(o <= n) && !(n <= o)
    ensures !(o <= p && n <= p)
  {
    if o <= p && n <= p {
      if |o| <= |n| { PrefixesNest(o, n, p); } else { PrefixesNest(n, o, p); }
    }
  }

  /** After such a rename the source is empty, so the way back is clear. */
  lemma SourceEmptied(db: Db, mp: int, oldPath: Path, newPath: Path, stat: Option<Stat>)
    requires Undoable(db, mp, oldPath, newPath)
    ensures DocsUnder(MoveDirectory(db, mp, oldPath, newPath, stat), mp, SubtreePrefix(oldPath)) == {}
  {
    var o, n := SubtreePrefix(oldPath), SubtreePrefix(newPath);
    var mid := MoveDirectory(db, mp, oldPath, newPath, stat);
    RenameIds(db, mp, oldPath, newPath, stat);
    hide MoveDirectory;
    forall id | id in mid.docs ensures !LiveUnder(mid, id, mp, o) {
      if mid.docs[id].live {
        RenameOfDocument(db, mp, oldPath, newPath, stat, id);
        PrefixesApart(o, n, mid.docs[id].path);
      }
    }
  }

  /** A tombstone is never touched by a rename. */
  lemma RenameOfTombstone(db: Db, mp: int, oldPath: Path, newPath: Path, stat: Option<Stat>, id: nat)
    requires id in db.docs && !db.docs[id].live
    ensures var after := MoveDirectory(db, mp, oldPath, newPath, stat);
            id in after.docs && after.docs[id] == db.docs[id]
  {
    hide MovedKeys;
  }

  lemma DocumentRestored(db: Db, mp: int, oldPath: Path, newPath: Path, there: Option<Stat>, back: Option<Stat>, id: nat)
    requires Undoable(db, mp, oldPath, newPath) && id in db.docs
    ensures var again := MoveDirectory(MoveDirectory(db, mp, oldPath, newPath, there), mp, newPath, oldPath, back);
            id in again.docs && again.docs[id] == db.docs[id]
  {
    var o, n := SubtreePrefix(oldPath), SubtreePrefix(newPath);
    var mid := MoveDirectory(db, mp, oldPath, newPath, there);
    hide MoveDirectory;
    if !db.docs[id].live {
      RenameOfTombstone(db, mp, oldPath, newPath, there, id);
      RenameOfTombstone(mid, mp, newPath, oldPath, back, id);
      return;
    }
    SourceEmptied(db, mp, oldPath, newPath, there);
    assert id !in DocsUnder(db, mp, n);
    RenameOfDocument(db, mp, oldPath, newPath, there, id);
    assert id !in DocsUnder(mid, mp, o);
    RenameOfDocument(mid, mp, newPath, oldPath, back, id);
    PrefixesApart(o, n, db.docs[id].path);
    if db.docs[id].mp == mp && o <= db.docs[id].path {
      RebaseBack(db.docs[id].path, o, n);
    }
  }

  /** Renaming there and back restores every document exactly, and requests nothing on the way. */
  lemma RenameBackRestoresDocuments(db: Db, mp: int, oldPath: Path, newPath: Path, there: Option<Stat>, back: Option<Stat>)
    requires Undoable(db, mp, oldPath, newPath)
    ensures var again := MoveDirectory(MoveDirectory(db, mp, oldPath, newPath, there), mp, newPath, oldPath, back);
            && again.docs == db.docs
            && again.ingest == db.ingest && again.extract == db.extract && again.invalidate == db.invalidate
  {
    var mid := MoveDirectory(db, mp, oldPath, newPath, there);
    var again := MoveDirectory(mid, mp, newPath, oldPath, back);
    hide MoveDirectory;
    SourceEmptied(db, mp, oldPath, newPath, there);
    RenameWork(db, mp, oldPath, newPath, there);
    RenameWork(mid, mp, newPath, oldPath, back);
    RenameIds(db, mp, oldPath, newPath, there);
    RenameIds(mid, mp, newPath, oldPath, back);
    assert Owed(db, {}) == {} && Owed(mid, {}) == {};
    hide *;
    forall id | id in db.docs ensures again.docs[id] == db.docs[id] {
      DocumentRestored(db, mp, oldPath, newPath, there, back, id);
    }
  }

  /** A row's place after a rename, apart from the rows of the two directories themselves. */
  lemma RenameOfRow(db: Db, mp: int, oldPath: Path, newPath: Path, stat: Option<Stat>, k: Key)
    requires k != Key(mp, oldPath) && k != Key(mp, newPath)
    ensures var o, n := SubtreePrefix(oldPath), SubtreePrefix(newPath);
            var after := MoveDirectory(db, mp, oldPath, newPath, stat);
            var cleared := ClearDestination(db, mp, newPath);
            && (k in after.obs <==> k in MoveObservationSubtree(cleared, mp, o, n).obs)
            && (k in after.obs ==> after.obs[k] == MoveObservationSubtree(cleared, mp, o, n).obs[k])
  {
    hide ClearDestination, MoveObservationSubtree;
  }

  lemma MovedRow(db: Db, mp: int, o: Path, n: Path, k: Key)
    requires k in MoveObservationSubtree(db, mp, o, n).obs
    requires !Under(k, mp, n) || !(k in db.obs)
    ensures MoveObservationSubtree(db, mp, o, n).obs[k]
         == if Under(k, mp, n) && Source(k, o, n) in db.obs then db.obs[Source(k, o, n)]
            else if k in db.obs then db.obs[k] else MoveObservationSubtree(db, mp, o, n).obs[k]
  {
    MovedKey(db, mp, o, n, k);
  }

  lemma ClearedValue(db: Db, mp: int, newPath: Path, k: Key)
    requires k in ClearDestination(db, mp, newPath).obs
    ensures k in db.obs && ClearDestination(db, mp, newPath).obs[k] == db.obs[k]
  {
  }

  /** ...and every observation too, apart from the two directories' own rows. */
  lemma RenameBackRestoresRows(db: Db, mp: int, oldPath: Path, newPath: Path, there: Option<Stat>, back: Option<Stat>, k: Key)
    requires Undoable(db, mp, oldPath, newPath)
    requires k != Key(mp, oldPath) && k != Key(mp, newPath)
    requires !Beneath(oldPath, oldPath) && !Beneath(newPath, newPath) // neither path ends in a slash
    ensures var again := MoveDirectory(MoveDirectory(db, mp, oldPath, newPath, there), mp, newPath, oldPath, back);
            (k in again.obs <==> k in db.obs) && (k in again.obs ==> again.obs[k] == db.obs[k])
  {
    var o, n := SubtreePrefix(oldPath), SubtreePrefix(newPath);
    var mid := MoveDirectory(db, mp, oldPath, newPath, there);
    var c1, c2 := ClearDestination(db, mp, newPath), ClearDestination(mid, mp, oldPath);
    RenameOfRow(mid, mp, newPath, oldPath, back, k);
    hide MoveDirectory, ClearDestination, MoveObservationSubtree, MovedKeys;
    ClearedRow(mid, mp, oldPath, k);
    MovedKey(c2, mp, n, o, k);
    PrefixesApart(o, n, k.path);
    if Under(k, mp, o) {
      var s := Source(k, n, o);
      RebaseBack(k.path, o, n);
      MidRow(db, mp, oldPath, newPath, there, s, k);
      PrefixesApart(o, n, s.path);
      ClearedRow(mid, mp, oldPath, s);
      ClearedRow(db, mp, newPath, k);
      if k in MoveObservationSubtree(c2, mp, n, o).obs {
        MovedRow(c2, mp, n, o, k);
        ClearedValue(mid, mp, oldPath, s);
      }
    } else {
      RenameOfRow(db, mp, oldPath, newPath, there, k);
      ClearedRow(db, mp, newPath, k);
      MovedKey(c1, mp, o, n, k);
      if Under(k, mp, n) {
        MidSourceGone(db, mp, oldPath, newPath, k);
      }
      if k in MoveObservationSubtree(c2, mp, n, o).obs {
        MovedRow(c2, mp, n, o, k);
        ClearedValue(mid, mp, oldPath, k);
        MovedRow(c1, mp, o, n, k);
        ClearedValue(db, mp, newPath, k);
      }
    }
  }

  /** Beneath an empty destination there is no row to be a source. */
  lemma MidSourceGone(db: Db, mp: int, oldPath: Path, newPath: Path, k: Key)
    requires Undoable(db, mp, oldPath, newPath) && Under(k, mp, SubtreePrefix(newPath))
    ensures k !in db.obs
  {
  }

  /** A row beneath the source, found at its place beneath the destination half way. */
  lemma MidRow(db: Db, mp: int, oldPath: Path, newPath: Path, stat: Option<Stat>, s: Key, k: Key)
    requires Undoable(db, mp, oldPath, newPath)
    requires !Beneath(oldPath, oldPath) && !Beneath(newPath, newPath) // neither path ends in a slash
    requires Under(k, mp, SubtreePrefix(oldPath)) && s == Key(mp, Rebase(k.path, SubtreePrefix(oldPath), SubtreePrefix(newPath)))
    ensures var mid := MoveDirectory(db, mp, oldPath, newPath, stat);
            (s in mid.obs <==> k in db.obs) && (s in mid.obs ==> mid.obs[s] == db.obs[k])
  {
    var o, n := SubtreePrefix(oldPath), SubtreePrefix(newPath);
    var c := ClearDestination(db, mp, newPath);
    RenameOfRow(db, mp, oldPath, newPath, stat, s);
    hide MoveDirectory, ClearDestination, MoveObservationSubtree, MovedKeys;
    RebaseBack(k.path, o, n);
    ClearedRow(db, mp, newPath, s);
    ClearedRow(db, mp, newPath, k);
    PrefixesApart(o, n, k.path);
    MovedKey(c, mp, o, n, s);
    if s in MoveObservationSubtree(c, mp, o, n).obs {
      MovedRow(c, mp, o, n, s);
      ClearedValue(db, mp, newPath, k);
    }
  }
}
