/** The ingest tables as values, and what each statement of the store does to them. */
module Tables {
  import opened Common
  import opened Paths

  datatype Key = Key(mp: int, path: Path)

  datatype Observation = Observation(
    size: int, mode: int, mtime: int, ino: int, dev: int, isDir: bool, seenEpoch: int)

  /** version is 0 for a document that has no content version yet. */
  datatype Document = Document(mp: int, path: Path, dev: int, ino: int, version: nat, live: bool)

  datatype ContentVersion = ContentVersion(id: nat, size: int)

  datatype Trigger = Debounced | Settled

  datatype IngestJob = IngestJob(mp: int, path: Path, trigger: Trigger)
  datatype Invalidation = Invalidation(doc: nat, version: nat)

  /** Requested jobs are multisets: a job commits with its transaction and the queue keeps no order. */
  datatype Db = Db(
    obs: map<Key, Observation>,
    docs: map<nat, Document>,
    versions: map<string, ContentVersion>,
    extractions: set<nat>,
    watermark: int,
    epoch: int,
    nextDoc: nat,
    nextVersion: nat,
    ingest: multiset<IngestJob>,
    extract: multiset<nat>,
    invalidate: multiset<Invalidation>)

  const EMPTY_DB := Db(map[], map[], map[], {}, 0, 0, 1, 1, multiset{}, multiset{}, multiset{})

  // ---- fs_observations ----

  predicate Under(k: Key, mp: int, prefix: Path) {
    k.mp == mp && prefix <= k.path
  }

  function UpsertObservation(db: Db, k: Key, o: Observation): Db {
    db.(obs := db.obs[k := o])
  }

  function DeleteObservation(db: Db, k: Key): Db {
    db.(obs := db.obs - {k})
  }

  function DeleteObservationSubtree(db: Db, mp: int, prefix: Path): Db {
    db.(obs := map k | k in db.obs && !Under(k, mp, prefix) :: db.obs[k])
  }

  /** The row whose move lands on k. */
  function Source(k: Key, oldPrefix: Path, newPrefix: Path): Key
    requires newPrefix <= k.path
  {
    Key(k.mp, Rebase(k.path, newPrefix, oldPrefix))
  }

  function MovedKeys(db: Db, mp: int, oldPrefix: Path, newPrefix: Path): set<Key> {
    set k | k in db.obs && Under(k, mp, oldPrefix) :: Key(mp, Rebase(k.path, oldPrefix, newPrefix))
  }

  function MoveObservationSubtree(db: Db, mp: int, oldPrefix: Path, newPrefix: Path): Db {
    db.(obs := (map k | k in db.obs && !Under(k, mp, oldPrefix) :: db.obs[k])
             + (map k | k in MovedKeys(db, mp, oldPrefix, newPrefix)
                        && newPrefix <= k.path && Source(k, oldPrefix, newPrefix) in db.obs
                     :: db.obs[Source(k, oldPrefix, newPrefix)]))
  }

  predicate Unseen(k: Key, o: Observation, mp: int, root: Path, epoch: int) {
    k.mp == mp && Contains(root, k.path) && o.seenEpoch != epoch
  }

  /** The paths a sweep of one root deletes and returns. */
  function Gone(db: Db, mp: int, root: Path, epoch: int): set<Path> {
    set k | k in db.obs && Unseen(k, db.obs[k], mp, root, epoch) :: k.path
  }

  function SweepScanEpoch(db: Db, mp: int, root: Path, epoch: int): Db {
    db.(obs := map k | k in db.obs && !Unseen(k, db.obs[k], mp, root, epoch) :: db.obs[k])
  }

  // ---- documents ----

  predicate LiveAt(db: Db, id: nat, mp: int, path: Path) {
    id in db.docs && db.docs[id].live && db.docs[id].mp == mp && db.docs[id].path == path
  }

  predicate LiveUnder(db: Db, id: nat, mp: int, prefix: Path) {
    id in db.docs && db.docs[id].live && db.docs[id].mp == mp && prefix <= db.docs[id].path
  }

  function DocsAt(db: Db, mp: int, path: Path): set<nat> {
    set id | id in db.docs && LiveAt(db, id, mp, path)
  }

  function DocsUnder(db: Db, mp: int, prefix: Path): set<nat> {
    set id | id in db.docs && LiveUnder(db, id, mp, prefix)
  }

  function FindByPath(db: Db, mp: int, path: Path): Option<nat> {
    Least(DocsAt(db, mp, path))
  }

  predicate HasInode(db: Db, id: nat, mp: int, dev: int, ino: int) {
    id in db.docs && db.docs[id].live && db.docs[id].mp == mp && db.docs[id].dev == dev && db.docs[id].ino == ino
  }

  function InodeHolders(db: Db, mp: int, dev: int, ino: int): set<nat> {
    set id | id in db.docs && HasInode(db, id, mp, dev, ino)
  }

  function FindByInode(db: Db, mp: int, dev: int, ino: int): Option<nat> {
    Least(InodeHolders(db, mp, dev, ino))
  }

  /** Only documents whose own path is no longer observed: a copy's source is not a move's. */
  function ContentHolders(db: Db, mp: int, hash: string): set<nat> {
    set id | id in db.docs && db.docs[id].live && db.docs[id].mp == mp
             && hash in db.versions && db.docs[id].version == db.versions[hash].id
             && Key(mp, db.docs[id].path) !in db.obs
  }

  function FindByContent(db: Db, mp: int, hash: string): Option<nat> {
    Least(ContentHolders(db, mp, hash))
  }

  function CreateDocument(db: Db, mp: int, path: Path, dev: int, ino: int): Db {
    db.(docs := db.docs[db.nextDoc := Document(mp, path, dev, ino, 0, true)], nextDoc := db.nextDoc + 1)
  }

  function MoveDocument(db: Db, id: nat, path: Path, dev: int, ino: int): Db {
    if id !in db.docs then db
    else db.(docs := db.docs[id := db.docs[id].(path := path, dev := dev, ino := ino)])
  }

  function MoveDocumentSubtree(db: Db, mp: int, oldPrefix: Path, newPrefix: Path): Db {
    db.(docs := map id | id in db.docs ::
          if LiveUnder(db, id, mp, oldPrefix)
          then db.docs[id].(path := Rebase(db.docs[id].path, oldPrefix, newPrefix))
          else db.docs[id])
  }

  function Tombstone(db: Db, ids: set<nat>): Db {
    db.(docs := map id | id in db.docs ::
          if id in ids then db.docs[id].(live := false) else db.docs[id])
  }

  // ---- content versions ----

  function UpsertContentVersion(db: Db, hash: string, size: int): Db {
    if hash in db.versions
    then db.(versions := db.versions[hash := db.versions[hash].(size := size)])
    else db.(versions := db.versions[hash := ContentVersion(db.nextVersion, size)],
             nextVersion := db.nextVersion + 1)
  }

  function SetVersion(db: Db, id: nat, version: nat): Db {
    if id !in db.docs then db
    else db.(docs := db.docs[id := db.docs[id].(version := version)])
  }

  function MarkExtractionPending(db: Db, version: nat): Db {
    db.(extractions := db.extractions + {version})
  }

  // ---- jobs, watermark, epoch ----

  function EnqueueIngest(db: Db, job: IngestJob): Db {
    db.(ingest := db.ingest + multiset{job})
  }

  function EnqueueExtract(db: Db, version: nat): Db {
    db.(extract := db.extract + multiset{version})
  }

  function EnqueueInvalidate(db: Db, job: Invalidation): Db {
    db.(invalidate := db.invalidate + multiset{job})
  }

  /** GREATEST(watermark, at). */
  function SetWatermark(db: Db, at: int): Db {
    db.(watermark := if at > db.watermark then at else db.watermark)
  }

  function NextScanEpoch(db: Db): Db {
    db.(epoch := db.epoch + 1)
  }

  // ---- what the schema's unique indexes demand ----

  /** documents_live_path: at most one live document at each (mountpoint, path). */
  ghost predicate UniqueLive(db: Db) {
    forall i, j, mp, path :: LiveAt(db, i, mp, path) && LiveAt(db, j, mp, path) ==> i == j
  }

  /** No statement of the subtree move lands on a path that already holds a live document. */
  ghost predicate DocumentsFree(db: Db, mp: int, oldPrefix: Path, newPrefix: Path) {
    forall i, j :: LiveUnder(db, i, mp, oldPrefix) && j in db.docs && db.docs[j].live && db.docs[j].mp == mp ==>
      db.docs[j].path != Rebase(db.docs[i].path, oldPrefix, newPrefix)
  }

  /** Nor on a key that already holds an observation. */
  ghost predicate ObservationsFree(db: Db, mp: int, oldPrefix: Path, newPrefix: Path) {
    forall k :: k in MovedKeys(db, mp, oldPrefix, newPrefix) ==> k !in db.obs
  }

  // ---- withdrawing documents ----

  /** The invalidations owed for a set of documents; none for one that never had a version. */
  function Owed(db: Db, ids: set<nat>): set<Invalidation> {
    set id | id in ids && id in db.docs && db.docs[id].version != 0 :: Invalidation(id, db.docs[id].version)
  }

  /** Tombstone every document of ids and request each one's invalidation. */
  function Withdraw(db: Db, ids: set<nat>): Db {
    Tombstone(db, ids).(invalidate := db.invalidate + multiset(Owed(db, ids)))
  }

  lemma OwedPlusOne(db: Db, ids: set<nat>, id: nat)
    requires id !in ids && id in db.docs
    ensures multiset(Owed(db, ids + {id}))
         == multiset(Owed(db, ids)) + (if db.docs[id].version == 0 then multiset{} else multiset{Invalidation(id, db.docs[id].version)})
  {
    var more := ids + {id};
    if db.docs[id].version == 0 {
      forall x | x in Owed(db, more) ensures x in Owed(db, ids) {
        assert x.doc in more;
      }
      assert Owed(db, more) == Owed(db, ids);
    } else {
      var job := Invalidation(id, db.docs[id].version);
      assert job !in Owed(db, ids);
      forall x | x in Owed(db, more) ensures x in Owed(db, ids) + {job} {
        assert x.doc in more;
      }
      assert Owed(db, more) == Owed(db, ids) + {job};
    }
  }

  // ---- listing a set of ids, the way RETURNING hands rows back ----

  function Listing(s: set<nat>): (r: seq<nat>)
    ensures forall x :: x in r <==> x in s
    ensures |r| == |s|
    ensures forall i, j :: 0 <= i < j < |r| ==> r[i] != r[j]
  {
    match Least(s)
    case None => []
    case Some(x) =>
      var rest := Listing(s - {x});
      [x] + rest
  }
}
