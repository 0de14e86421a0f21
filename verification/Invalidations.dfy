/** Which thumbnails stay valid, across the two databases' tables: those of a live document's current version. */
module Invalidations {
  import opened Common
  import opened Tables
  import opened Thumbnails
  import opened CacheWorkers

  /** The versions the stale marks' subquery finds current. */
  function CurrentVersions(db: Db): set<nat> {
    set id | id in db.docs && db.docs[id].live :: db.docs[id].version
  }

  /** Some live document shows this version now. */
  predicate Shown(db: Db, version: nat) {
    exists id :: id in db.docs && db.docs[id].live && db.docs[id].version == version
  }

  /** A live row survives an invalidation of one version, or of every stale one, if and only if a live document
      shows its version or it is not the version named; and then it is untouched. */
  lemma SurvivesIffShown(db: Db, rows: Rows, version: Option<nat>, now: int, refused: set<string>, outage: Outage, id: nat)
    requires id in rows && rows[id].withdrawn.None?
    ensures var kept := Mark(rows, Stale(rows, version, CurrentVersions(db)), now);
            var left := kept - PurgedIds(kept, refused, outage);
            if Shown(db, rows[id].version) || (version.Some? && rows[id].version != version.value)
            then id in left && left[id] == rows[id]
            else !(id in left && left[id].withdrawn.None?)
  {
    CurrentIsShown(db, rows[id].version);
    StaleRow(rows, version, CurrentVersions(db), now, refused, outage, id);
    hide Stale, PurgedIds, Mark;
  }

  lemma CurrentIsShown(db: Db, version: nat)
    ensures version in CurrentVersions(db) <==> Shown(db, version)
  {
  }
}
