/** Promotions racing on one document: each finds it and reads its version in one step and writes in a later
    one, and any other transaction may commit between the two. */
module Races {
  import opened Common
  import opened Paths
  import opened Tables
  import opened Reconcile
  import opened Ledger
  import opened LivePaths
  import opened ObservedPaths
  import opened Attempts

  const PROMOTE_ATTEMPTS := 3

  /** since is how many flips had landed when the version was read; only the proofs look at it. */
  datatype Phase = Ready | Holding(seen: nat, place: Option<Place>, since: nat) | Done | GaveUp | Errored

  datatype Job = Job(digest: string, size: int, lost: nat, phase: Phase)

  /** live: the document was live as it was flipped. */
  datatype Flipped = Flipped(was: nat, now: nat, live: bool)

  /** History, which the program does not keep: flips the versions the document went through, died the one it
      died with, elsewhere the extractions that promotions of other documents requested. */
  datatype Race = Race(db: Db, jobs: seq<Job>, flips: seq<Flipped>, died: Option<nat>, elsewhere: multiset<nat>)

  /** A job finds the document by whatever statement, to be put at whatever place, or writes; Meanwhile is any
      event or scan, Elsewhere the writes of any promotion that found another document, or none. */
  datatype Turn =
    | Reads(job: nat, place: Option<Place>)
    | Swaps(job: nat)
    | Meanwhile(step: Step)
    | Elsewhere(target: Target, digest: string, size: int)

  function AfterSwap(j: Job, outcome: Outcome): Job {
    match outcome
    case Lost => j.(lost := j.lost + 1, phase := if j.lost + 1 >= PROMOTE_ATTEMPTS then GaveUp else Ready)
    case Refused => j.(phase := Errored)
    case _ => j.(phase := Done)
  }

  predicate IsElsewhere(db: Db, target: Target, doc: nat) {
    Writable(db, target) && !(target.Found? && target.doc == doc)
  }

  /** A turn that is not enabled changes nothing. Only live documents are found. */
  function Play(cfg: Config, doc: nat, r: Race, turn: Turn): Race
    requires doc in r.db.docs
  {
    match turn
    case Reads(n, place) =>
      if n < |r.jobs| && r.jobs[n].phase == Ready && r.db.docs[doc].live
      then r.(jobs := r.jobs[n := r.jobs[n].(phase := Holding(r.db.docs[doc].version, place, |r.flips|))])
      else r
    case Swaps(n) =>
      if n < |r.jobs| && r.jobs[n].phase.Holding? then
        var j := r.jobs[n];
        var (db, outcome) := Swap(r.db, doc, j.phase.seen, j.phase.place, j.digest, j.size);
        r.(db := db, jobs := r.jobs[n := AfterSwap(j, outcome)],
           flips := if outcome == Won then r.flips + [Flipped(j.phase.seen, VersionOf(db, doc), r.db.docs[doc].live)] else r.flips)
      else r
    case Meanwhile(step) =>
      // A promotion is a job, or elsewhere.
      if step.Promoted? then r
      else
        var db := After(cfg, r.db, step);
        r.(db := db,
           died := if r.db.docs[doc].live && doc in db.docs && !db.docs[doc].live then Some(r.db.docs[doc].version) else r.died)
    case Elsewhere(target, digest, size) =>
      if IsElsewhere(r.db, target, doc) then
        var db := Write(r.db, target, digest, size).0;
        r.(db := db, elsewhere := r.elsewhere + (db.extract - r.db.extract))
      else r
  }

  function VersionOf(db: Db, doc: nat): nat {
    if doc in db.docs then db.docs[doc].version else 0
  }

  /** The turns cover the program: every attempt of a promotion is, on what it finds at its two moments, either
      a job's two turns or one turn elsewhere. */
  lemma TurnsCoverAttempts(cfg: Config, doc: nat, r: Race, later: Race, n: nat,
                           mp: int, path: Path, observed: Observation, digest: string, size: int)
    requires doc in r.db.docs && doc in later.db.docs && n < |r.jobs| && n < |later.jobs|
    requires r.jobs[n] == Job(digest, size, r.jobs[n].lost, Ready)
    requires Proceeds(r.db, Key(mp, path), observed) && Possible(r.db, later.db, mp, path, digest)
    ensures var target := Look(r.db, mp, path, r.db.obs[Key(mp, path)], digest);
            var (after, verdict) := Attempt(r.db, later.db, mp, path, observed, digest, size);
            if target.Found? && target.doc == doc then
              later.jobs[n] == Play(cfg, doc, r, Reads(n, target.place)).jobs[n] ==>
                var end := Play(cfg, doc, later, Swaps(n));
                && end.db == after
                && (verdict == Raced <==> end.jobs[n].lost == r.jobs[n].lost + 1)
                && (verdict == Failed <==> end.jobs[n].phase == Errored)
            else Play(cfg, doc, later, Elsewhere(target, digest, size)).db == after
  {
    LookFindsLive(r.db, mp, path, r.db.obs[Key(mp, path)], digest);
    hide Look, Swap, SameFile;
  }

  // ---- nothing but its own jobs changes which version a document has ----

  predicate KeepsVersion(a: Db, b: Db, id: nat) {
    id in a.docs ==> id in b.docs && b.docs[id].version == a.docs[id].version && (b.docs[id].live ==> a.docs[id].live)
  }

  lemma DeleteKeepsVersion(cfg: Config, db: Db, path: Path, isDir: bool, id: nat)
    ensures KeepsVersion(db, ApplyDelete(cfg, db, path, isDir), id)
  {
    hide Owed, DocsAt, DocsUnder;
  }

  lemma MoveFileKeepsVersion(cfg: Config, db: Db, mp: int, oldPath: Path, newPath: Path, stat: Option<Stat>, id: nat)
    ensures KeepsVersion(db, MoveFile(cfg, db, mp, oldPath, newPath, stat), id)
  {
    var d2 := UpsertObservation(DeleteObservation(db, Key(mp, oldPath)), Key(mp, newPath), ObservationOf(stat, false, 0));
    hide Withdraw, DocsAt, FindByPath;
    if FindByPath(d2, mp, oldPath).Some? {
      var moved, ids := FindByPath(d2, mp, oldPath).value, DocsAt(d2, mp, newPath) - {FindByPath(d2, mp, oldPath).value};
      WithdrawShape(d2, ids);
      WithdrawShape(Withdraw(d2, ids), {moved});
    }
  }

  lemma MoveDirectoryKeepsVersion(db: Db, mp: int, oldPath: Path, newPath: Path, stat: Option<Stat>, id: nat)
    ensures KeepsVersion(db, MoveDirectory(db, mp, oldPath, newPath, stat), id)
  {
    hide Owed, DocsUnder, MovedKeys;
  }

  lemma KindKeepsVersion(cfg: Config, db: Db, ev: Event, id: nat)
    ensures KeepsVersion(db, ApplyKind(cfg, db, ev), id)
  {
    hide ApplyDelete, MoveFile, MoveDirectory, Resolve;
    DeleteKeepsVersion(cfg, db, ev.path, ev.isDir, id);
    DeleteKeepsVersion(cfg, db, ev.oldPath, ev.isDir, id);
    if Resolve(cfg, ev.path).Some? {
      MoveFileKeepsVersion(cfg, db, Resolve(cfg, ev.path).value, ev.oldPath, ev.path, ev.stat, id);
      MoveDirectoryKeepsVersion(db, Resolve(cfg, ev.path).value, ev.oldPath, ev.path, ev.stat, id);
    }
  }

  lemma ScanKeepsVersion(cfg: Config, db: Db, m: Mountpoint, stream: seq<Scanned>, id: nat)
    ensures KeepsVersion(db, ReconcileRoot(cfg, db, m, stream), id)
  {
    var begun := NextScanEpoch(db);
    ObserveAllTouchesNoDocument(cfg, begun, stream, begun.epoch);
    hide Owed, ObserveAll, DocsAtAny, Gone;
  }

  /** Neither an event nor a scan requests an extraction. */
  lemma StepKeepsVersion(cfg: Config, db: Db, step: Step, id: nat)
    requires Sound(db) && id in db.docs && !step.Promoted?
    ensures KeepsVersion(db, After(cfg, db, step), id) && After(cfg, db, step).extract == db.extract
  {
    hide ApplyEvent, ApplyKind, ReconcileRoot, Held, Promote;
    match step
    case Applied(ev) =>
      KindKeepsVersion(cfg, db, ev, id);
      EventSheds(cfg, db, ev);
      EventKeepsVersion(cfg, db, ev, id);
    case Rescanned(m, stream) =>
      ScanKeepsVersion(cfg, db, m, stream, id);
      ScanSheds(cfg, db, m, stream);
    case Abandoned =>
    case Marked(at) =>
  }

  lemma EventKeepsVersion(cfg: Config, db: Db, ev: Event, id: nat)
    requires KeepsVersion(db, ApplyKind(cfg, db, ev), id)
    ensures KeepsVersion(db, ApplyEvent(cfg, db, ev), id)
  {
    hide ApplyKind;
  }

  // ---- the chain ----

  /** Each flip starts from the version the one before it left. */
  predicate Chain(v0: nat, flips: seq<Flipped>, current: nat)
    decreases |flips|
  {
    if flips == [] then current == v0
    else
      var last := flips[|flips| - 1];
      last.now == current && last.now != last.was && Chain(v0, flips[..|flips| - 1], last.was)
  }

  /** How many flips left version v behind. */
  function Left(flips: seq<Flipped>, v: nat): nat
    decreases |flips|
  {
    if flips == [] then 0 else Left(flips[..|flips| - 1], v) + (if flips[|flips| - 1].was == v then 1 else 0)
  }

  /** How many flips arrived at version v. */
  function Reached(flips: seq<Flipped>, v: nat): nat
    decreases |flips|
  {
    if flips == [] then 0 else Reached(flips[..|flips| - 1], v) + (if flips[|flips| - 1].now == v then 1 else 0)
  }

  /** How many flips left version v behind after the document had died. */
  function LeftLate(flips: seq<Flipped>, v: nat): nat
    decreases |flips|
  {
    if flips == [] then 0
    else LeftLate(flips[..|flips| - 1], v) + (if flips[|flips| - 1].was == v && !flips[|flips| - 1].live then 1 else 0)
  }

  predicate AllLive(flips: seq<Flipped>) {
    forall i :: 0 <= i < |flips| ==> flips[i].live
  }

  function Deaths(died: Option<nat>, v: nat): nat {
    if died == Some(v) then 1 else 0
  }

  predicate JobFits(doc: nat, r: Race, j: Job)
    requires doc in r.db.docs
  {
    && j.lost <= |r.flips|
    && (j.phase.Holding? ==>
          && j.lost <= j.phase.since <= |r.flips|
          && (j.phase.seen != r.db.docs[doc].version ==> j.phase.since < |r.flips|))
    && j.lost <= PROMOTE_ATTEMPTS && (j.phase == GaveUp <==> j.lost == PROMOTE_ATTEMPTS)
  }

  /** The state of a race that began in `start`. */
  ghost predicate Fits(doc: nat, start: Db, r: Race) {
    && doc in start.docs && start.docs[doc].live && doc in r.db.docs && Sound(r.db)
    && (r.died.None? <==> r.db.docs[doc].live)
    && Chain(start.docs[doc].version, r.flips, r.db.docs[doc].version)
    && (r.died.None? ==> AllLive(r.flips))
    && (r.died.Some? && AllLive(r.flips) ==> r.db.docs[doc].version == r.died.value)
    && (forall n :: 0 <= n < |r.jobs| ==> JobFits(doc, r, r.jobs[n]))
  }

  /** Invalidations requested for the document since the start: one for each version a flip left behind and
      one for the version it died with, never for version 0. Extractions: one for each flip, of the version
      it arrived at, beside those of other documents. */
  ghost predicate Requested(doc: nat, start: Db, r: Race, v: nat) {
    && r.db.invalidate[Invalidation(doc, v)]
       == start.invalidate[Invalidation(doc, v)] + (if v == 0 then 0 else Left(r.flips, v) + Deaths(r.died, v))
    && r.db.extract[v] == start.extract[v] + Reached(r.flips, v) + r.elsewhere[v]
  }

  /** Where one swap leaves the race. */
  lemma SwapShape(cfg: Config, doc: nat, r: Race, n: nat)
    requires doc in r.db.docs && n < |r.jobs| && r.jobs[n].phase.Holding?
    ensures var j := r.jobs[n];
            var (db, outcome) := Swap(r.db, doc, j.phase.seen, j.phase.place, j.digest, j.size);
            var next := Play(cfg, doc, r, Swaps(n));
            && next.db == db && next.died == r.died && next.elsewhere == r.elsewhere
            && (outcome == Won ==> next.flips == r.flips + [Flipped(j.phase.seen, VersionOf(db, doc), r.db.docs[doc].live)])
            && (outcome != Won ==> next.flips == r.flips)
            && next.jobs == r.jobs[n := AfterSwap(j, outcome)]
  {
    hide AfterSwap, Swap;
  }

  lemma JobAfterSwap(doc: nat, r: Race, next: Race, i: nat, n: nat, outcome: Outcome)
    requires doc in r.db.docs && doc in next.db.docs && n < |r.jobs| && r.jobs[n].phase.Holding? && i < |r.jobs|
    requires JobFits(doc, r, r.jobs[i]) && JobFits(doc, r, r.jobs[n])
    requires next.jobs == r.jobs[n := AfterSwap(r.jobs[n], outcome)]
    requires outcome == Won ==> |next.flips| == |r.flips| + 1
    requires outcome != Won ==> next.flips == r.flips && next.db.docs[doc].version == r.db.docs[doc].version
    requires outcome == Lost ==> r.jobs[n].phase.seen != r.db.docs[doc].version
    ensures JobFits(doc, next, next.jobs[i])
  {
  }

  lemma ChainGrows(v0: nat, flips: seq<Flipped>, current: nat, f: Flipped)
    requires Chain(v0, flips, current) && f.was == current && f.now != f.was
    ensures Chain(v0, flips + [f], f.now)
  {
    assert (flips + [f])[..|flips|] == flips;
  }

  lemma SwapPlays(cfg: Config, doc: nat, start: Db, r: Race, n: nat)
    requires Fits(doc, start, r) && n < |r.jobs| && r.jobs[n].phase.Holding?
    ensures Fits(doc, start, Play(cfg, doc, r, Swaps(n)))
  {
    hide Swap, Sound, Play, Chain, AfterSwap, JobFits;
    var j := r.jobs[n];
    var next := Play(cfg, doc, r, Swaps(n));
    SwapShape(cfg, doc, r, n);
    SwapSound(r.db, doc, j.phase.seen, j.phase.place, j.digest, j.size);
    var (db, outcome) := Swap(r.db, doc, j.phase.seen, j.phase.place, j.digest, j.size);
    if outcome == Won {
      ChainGrows(start.docs[doc].version, r.flips, r.db.docs[doc].version, Flipped(j.phase.seen, VersionOf(db, doc), r.db.docs[doc].live));
      LateNow(r.flips, Flipped(j.phase.seen, VersionOf(db, doc), r.db.docs[doc].live));
    }
    hide AllLive;
    forall i | 0 <= i < |next.jobs| ensures JobFits(doc, next, next.jobs[i]) {
      assert JobFits(doc, r, r.jobs[i]);
      JobAfterSwap(doc, r, next, i, n, outcome);
    }
  }

  lemma LateNow(flips: seq<Flipped>, f: Flipped)
    ensures AllLive(flips + [f]) <==> AllLive(flips) && f.live
  {
    assert AllLive(flips + [f]) ==> AllLive(flips) && f.live by {
      if AllLive(flips + [f]) {
        assert forall i :: 0 <= i < |flips| ==> (flips + [f])[i] == flips[i];
        assert (flips + [f])[|flips|] == f;
      }
    }
  }

  lemma SwapRequests(cfg: Config, doc: nat, start: Db, r: Race, n: nat, v: nat)
    requires doc in r.db.docs && Sound(r.db) && n < |r.jobs| && r.jobs[n].phase.Holding?
    requires Requested(doc, start, r, v)
    ensures Requested(doc, start, Play(cfg, doc, r, Swaps(n)), v)
  {
    hide Swap, Sound, Play, Left, Reached;
    var j := r.jobs[n];
    SwapShape(cfg, doc, r, n);
    SwapSound(r.db, doc, j.phase.seen, j.phase.place, j.digest, j.size);
    var (db, outcome) := Swap(r.db, doc, j.phase.seen, j.phase.place, j.digest, j.size);
    if outcome == Won {
      FlipsGrow(r.flips, Flipped(j.phase.seen, VersionOf(db, doc), r.db.docs[doc].live), v);
    }
  }

  lemma FlipsGrow(flips: seq<Flipped>, f: Flipped, v: nat)
    ensures Left(flips + [f], v) == Left(flips, v) + (if f.was == v then 1 else 0)
    ensures Reached(flips + [f], v) == Reached(flips, v) + (if f.now == v then 1 else 0)
  {
    assert (flips + [f])[..|flips|] == flips;
  }

  lemma MeanwhileShape(cfg: Config, doc: nat, r: Race, step: Step)
    requires doc in r.db.docs && !step.Promoted?
    ensures var next := Play(cfg, doc, r, Meanwhile(step));
            && next.db == After(cfg, r.db, step) && next.jobs == r.jobs && next.flips == r.flips && next.elsewhere == r.elsewhere
            && (doc in next.db.docs ==>
                  next.died == if r.db.docs[doc].live && !next.db.docs[doc].live then Some(r.db.docs[doc].version) else r.died)
  {
    hide After;
  }

  lemma MeanwhileRequests(cfg: Config, doc: nat, start: Db, r: Race, step: Step, v: nat)
    requires Fits(doc, start, r) && !step.Promoted? && Requested(doc, start, r, v)
    ensures Requested(doc, start, Play(cfg, doc, r, Meanwhile(step)), v)
  {
    hide After, Sound, Held, Play, Chain, JobFits, Left, Reached, AllLive;
    var next := Play(cfg, doc, r, Meanwhile(step));
    MeanwhileShape(cfg, doc, r, step);
    StepAccounts(cfg, r.db, step);
    StepKeepsVersion(cfg, r.db, step, doc);
    HeldMember(r.db.docs, Invalidation(doc, v));
    HeldMember(next.db.docs, Invalidation(doc, v));
  }

  lemma MeanwhilePlays(cfg: Config, doc: nat, start: Db, r: Race, step: Step)
    requires Fits(doc, start, r) && !step.Promoted?
    ensures Fits(doc, start, Play(cfg, doc, r, Meanwhile(step)))
  {
    hide After, Sound, Held, Play, Chain, Accounts;
    var next := Play(cfg, doc, r, Meanwhile(step));
    MeanwhileShape(cfg, doc, r, step);
    StepAccounts(cfg, r.db, step);
    StepKeepsVersion(cfg, r.db, step, doc);
    forall i | 0 <= i < |next.jobs| ensures JobFits(doc, next, next.jobs[i]) {
      assert JobFits(doc, r, r.jobs[i]);
    }
  }

  lemma ElsewherePlays(cfg: Config, doc: nat, start: Db, r: Race, target: Target, digest: string, size: int)
    requires Fits(doc, start, r)
    ensures var next := Play(cfg, doc, r, Elsewhere(target, digest, size));
            Fits(doc, start, next) && forall v :: Requested(doc, start, r, v) ==> Requested(doc, start, next, v)
  {
    var next := Play(cfg, doc, r, Elsewhere(target, digest, size));
    if IsElsewhere(r.db, target, doc) {
      WriteSpares(r.db, target, digest, size, doc);
      hide Write, Sound, Chain, Left, Reached, AllLive;
      forall i | 0 <= i < |next.jobs| ensures JobFits(doc, next, next.jobs[i]) {
        assert JobFits(doc, r, r.jobs[i]);
      }
    }
  }

  lemma TurnPlays(cfg: Config, doc: nat, start: Db, r: Race, turn: Turn)
    requires Fits(doc, start, r)
    ensures Fits(doc, start, Play(cfg, doc, r, turn))
    ensures forall v :: Requested(doc, start, r, v) ==> Requested(doc, start, Play(cfg, doc, r, turn), v)
  {
    hide Swap, Sound, Chain, Write, After;
    match turn
    case Reads(n, place) =>
      var next := Play(cfg, doc, r, turn);
      forall i | 0 <= i < |next.jobs| ensures JobFits(doc, next, next.jobs[i]) {
        assert JobFits(doc, r, r.jobs[i]);
      }
    case Swaps(n) =>
      if n < |r.jobs| && r.jobs[n].phase.Holding? {
        SwapPlays(cfg, doc, start, r, n);
        forall v | Requested(doc, start, r, v) ensures Requested(doc, start, Play(cfg, doc, r, turn), v) {
          SwapRequests(cfg, doc, start, r, n, v);
        }
      }
    case Meanwhile(step) =>
      if !step.Promoted? {
        MeanwhilePlays(cfg, doc, start, r, step);
        forall v | Requested(doc, start, r, v) ensures Requested(doc, start, Play(cfg, doc, r, turn), v) {
          MeanwhileRequests(cfg, doc, start, r, step, v);
        }
      }
    case Elsewhere(target, digest, size) => ElsewherePlays(cfg, doc, start, r, target, digest, size);
  }

  /** A race of any number of fresh jobs under any schedule of turns. */
  ghost predicate Reaches(cfg: Config, doc: nat, start: Db, turns: seq<Turn>, r: Race)
    decreases |turns|
  {
    if turns == [] then
      && r.db == start && r.flips == [] && r.died.None? && r.elsewhere == multiset{}
      && forall n :: 0 <= n < |r.jobs| ==> r.jobs[n].phase == Ready && r.jobs[n].lost == 0
    else
      exists p: Race :: Reaches(cfg, doc, start, turns[..|turns| - 1], p) && doc in p.db.docs && r == Play(cfg, doc, p, turns[|turns| - 1])
  }

  /** Whatever the schedule, the committed flips of one document form a chain from its first version to its
      current one, and what was requested for it is exactly the versions it left and the one it died with. */
  lemma {:induction false} FlipsFormAChain(cfg: Config, doc: nat, start: Db, turns: seq<Turn>, r: Race)
    requires doc in start.docs && start.docs[doc].live && Sound(start)
    requires Reaches(cfg, doc, start, turns, r)
    ensures Fits(doc, start, r)
    ensures forall v :: Requested(doc, start, r, v)
    decreases |turns|
  {
    hide Play, Sound, Fits, Requested;
    if turns == [] {
      AtTheStart(doc, start, r);
    } else {
      var p: Race :| Reaches(cfg, doc, start, turns[..|turns| - 1], p) && doc in p.db.docs && r == Play(cfg, doc, p, turns[|turns| - 1]);
      FlipsFormAChain(cfg, doc, start, turns[..|turns| - 1], p);
      TurnPlays(cfg, doc, start, p, turns[|turns| - 1]);
    }
  }

  lemma AtTheStart(doc: nat, start: Db, r: Race)
    requires doc in start.docs && start.docs[doc].live && Sound(start)
    requires r.db == start && r.flips == [] && r.died.None? && r.elsewhere == multiset{}
    requires forall n :: 0 <= n < |r.jobs| ==> r.jobs[n].phase == Ready && r.jobs[n].lost == 0
    ensures Fits(doc, start, r) && forall v :: Requested(doc, start, r, v)
  {
  }

  /** While the document lives, the invalidations are exactly the nonzero versions it was flipped away from. */
  lemma LiveChainIsExact(cfg: Config, doc: nat, start: Db, turns: seq<Turn>, r: Race, v: nat)
    requires doc in start.docs && start.docs[doc].live && Sound(start)
    requires Reaches(cfg, doc, start, turns, r) && doc in r.db.docs && r.db.docs[doc].live
    ensures r.db.invalidate[Invalidation(doc, v)]
         == start.invalidate[Invalidation(doc, v)] + if v == 0 then 0 else Left(r.flips, v)
  {
    FlipsFormAChain(cfg, doc, start, turns, r);
    assert Requested(doc, start, r, v);
  }

  lemma {:induction false} LateIff(flips: seq<Flipped>, v: nat)
    ensures LeftLate(flips, v) > 0 <==> exists i :: 0 <= i < |flips| && flips[i].was == v && !flips[i].live
    decreases |flips|
  {
    if flips != [] {
      var init := flips[..|flips| - 1];
      LateIff(init, v);
      if i :| 0 <= i < |init| && init[i].was == v && !init[i].live {
        assert flips[i].was == v && !flips[i].live;
      }
    }
  }

  /** What is owed for the document: one for each version it let go of while it lived, and the one it died with. */
  ghost predicate ExactlyOwed(doc: nat, start: Db, r: Race, v: nat) {
    r.db.invalidate[Invalidation(doc, v)]
    == start.invalidate[Invalidation(doc, v)] + (if v == 0 then 0 else Left(r.flips, v) - LeftLate(r.flips, v) + Deaths(r.died, v))
  }

  /** Over a whole race the requests are exactly what is owed if and only if no flip away from a version landed
      after the death; and a tombstone holds a version it did not die with only after such a late flip. */
  lemma ExcessIffALateFlip(cfg: Config, doc: nat, start: Db, turns: seq<Turn>, r: Race)
    requires doc in start.docs && start.docs[doc].live && Sound(start)
    requires Reaches(cfg, doc, start, turns, r)
    ensures (forall v :: ExactlyOwed(doc, start, r, v))
       <==> forall i :: 0 <= i < |r.flips| && !r.flips[i].live ==> r.flips[i].was == 0
    ensures r.died.None? ==> AllLive(r.flips)
    ensures doc in r.db.docs && (r.died.Some? && AllLive(r.flips) ==> r.db.docs[doc].version == r.died.value)
  {
    FlipsFormAChain(cfg, doc, start, turns, r);
    hide Chain, Reaches, Sound, JobFits;
    if forall v :: ExactlyOwed(doc, start, r, v) {
      forall i | 0 <= i < |r.flips| && !r.flips[i].live ensures r.flips[i].was == 0 {
        var v := r.flips[i].was;
        LateIff(r.flips, v);
        assert Requested(doc, start, r, v) && ExactlyOwed(doc, start, r, v);
      }
    }
    if forall i :: 0 <= i < |r.flips| && !r.flips[i].live ==> r.flips[i].was == 0 {
      forall v ensures ExactlyOwed(doc, start, r, v) {
        LateIff(r.flips, v);
        assert Requested(doc, start, r, v);
      }
    }
  }

  /** A job gives up exactly at its third lost swap and never loses another; and it only ever loses to as many
      other flips: somebody always wins. */
  lemma GivingUpMeansOthersWon(cfg: Config, doc: nat, start: Db, turns: seq<Turn>, r: Race, n: nat)
    requires doc in start.docs && start.docs[doc].live && Sound(start)
    requires Reaches(cfg, doc, start, turns, r) && n < |r.jobs|
    ensures r.jobs[n].lost <= 3 && (r.jobs[n].phase == GaveUp <==> r.jobs[n].lost == 3)
    ensures r.jobs[n].lost <= |r.flips|
  {
    FlipsFormAChain(cfg, doc, start, turns, r);
    assert JobFits(doc, r, r.jobs[n]);
  }

  // ---- live paths ----

  lemma TurnUnique(cfg: Config, doc: nat, r: Race, turn: Turn)
    requires doc in r.db.docs && Sound(r.db) && UniqueLive(r.db)
    ensures UniqueLive(Play(cfg, doc, r, turn).db)
  {
    hide UniqueLive, Swap, Write, After;
    match turn
    case Reads(n, place) =>
    case Swaps(n) =>
      if n < |r.jobs| && r.jobs[n].phase.Holding? {
        SwapUnique(r.db, doc, r.jobs[n].phase.seen, r.jobs[n].phase.place, r.jobs[n].digest, r.jobs[n].size);
      }
    case Meanwhile(step) => StepUnique(cfg, r.db, step);
    case Elsewhere(target, digest, size) =>
      if IsElsewhere(r.db, target, doc) {
        WriteUnique(r.db, target, digest, size);
      }
  }

  /** The index keeps live paths unique through every race; no schedule gets a second live document past it. */
  lemma {:induction false} RaceUnique(cfg: Config, doc: nat, start: Db, turns: seq<Turn>, r: Race)
    requires doc in start.docs && start.docs[doc].live && Sound(start) && UniqueLive(start)
    requires Reaches(cfg, doc, start, turns, r)
    ensures UniqueLive(r.db)
    decreases |turns|
  {
    hide Play, Sound, UniqueLive;
    if turns != [] {
      var p: Race :| Reaches(cfg, doc, start, turns[..|turns| - 1], p) && doc in p.db.docs && r == Play(cfg, doc, p, turns[|turns| - 1]);
      RaceUnique(cfg, doc, start, turns[..|turns| - 1], p);
      FlipsFormAChain(cfg, doc, start, turns[..|turns| - 1], p);
      TurnUnique(cfg, doc, p, turns[|turns| - 1]);
    }
  }

  // ---- a tombstone nobody holds ----

  /** The document is dead, and no job that read it while it lived has still to write. */
  predicate Forgotten(doc: nat, r: Race) {
    && doc in r.db.docs && !r.db.docs[doc].live
    && forall n :: 0 <= n < |r.jobs| ==> !r.jobs[n].phase.Holding?
  }

  /** From then on no turn gives it another version or invalidates one it had: a late flip's version stays. */
  lemma ForgottenForGood(cfg: Config, doc: nat, r: Race, turn: Turn)
    requires Sound(r.db) && Forgotten(doc, r)
    ensures var next := Play(cfg, doc, r, turn);
            && Sound(next.db) && Forgotten(doc, next) && next.db.docs[doc].version == r.db.docs[doc].version
            && forall v :: next.db.invalidate[Invalidation(doc, v)] == r.db.invalidate[Invalidation(doc, v)]
  {
    hide Sound, Held, Swap, Write, After;
    match turn
    case Reads(n, place) =>
    case Swaps(n) =>
    case Meanwhile(step) =>
      if !step.Promoted? {
        StepAccounts(cfg, r.db, step);
        StepKeepsVersion(cfg, r.db, step, doc);
        forall v ensures Invalidation(doc, v) !in Held(r.db.docs) {
          HeldMember(r.db.docs, Invalidation(doc, v));
        }
      }
    case Elsewhere(target, digest, size) =>
      if IsElsewhere(r.db, target, doc) {
        WriteSpares(r.db, target, digest, size, doc);
      }
  }

  function PlayAll(cfg: Config, doc: nat, r: Race, turns: seq<Turn>): Race
    decreases |turns|
  {
    if turns == [] then r
    else
      var p := PlayAll(cfg, doc, r, turns[..|turns| - 1]);
      if doc in p.db.docs then Play(cfg, doc, p, turns[|turns| - 1]) else p
  }

  /** Nor does any schedule, however long. */
  lemma {:induction false} ForgottenForever(cfg: Config, doc: nat, r: Race, turns: seq<Turn>)
    requires Sound(r.db) && Forgotten(doc, r)
    ensures var end := PlayAll(cfg, doc, r, turns);
            && Sound(end.db) && Forgotten(doc, end) && end.db.docs[doc].version == r.db.docs[doc].version
            && forall v :: end.db.invalidate[Invalidation(doc, v)] == r.db.invalidate[Invalidation(doc, v)]
    decreases |turns|
  {
    hide Play, Sound;
    if turns != [] {
      var p := PlayAll(cfg, doc, r, turns[..|turns| - 1]);
      ForgottenForever(cfg, doc, r, turns[..|turns| - 1]);
      ForgottenForGood(cfg, doc, p, turns[|turns| - 1]);
    }
  }

  /** The chain need not end well when the document is deleted between a job's read and its writes, wherever
      the job is to put it: the swap does not look at the tombstone, so the version the document died with is
      invalidated twice. */
  lemma DeletedUnderAPromotion(db: Db, place: Option<Place>, digest: string, size: int)
    requires Sound(db) && digest !in db.versions && 1 in db.docs
    requires db.docs[1] == Document(0, "/r/f", 0, 0, 1, true) && db.nextVersion > 1
    ensures var cfg := Config([Mountpoint(0, "/r")], p => true);
            var gone := ApplyDelete(cfg, db, "/r/f", false);
            && 1 in gone.docs
            && var (after, outcome) := Swap(gone, 1, 1, place, digest, size);
               && outcome == Won && 1 in after.docs && !after.docs[1].live && after.docs[1].version == db.nextVersion
               && (place.Some? ==> after.docs[1].path == place.value.path)
               && after.invalidate[Invalidation(1, 1)] >= db.invalidate[Invalidation(1, 1)] + 2
  {
    var cfg := Config([Mountpoint(0, "/r")], p => true);
    var gone := ApplyDelete(cfg, db, "/r/f", false);
    DeepestIsDeepest(cfg.mountpoints, "/r/f");
    assert SubtreePrefix("/r") == "/r/";
    assert Contains("/r", "/r/f");
    assert Deepest(cfg.mountpoints, "/r/f") == Some(cfg.mountpoints[0]);
    DeleteSheds(cfg, db, "/r/f", false);
    assert 1 in DocsAt(DeleteObservation(db, Key(0, "/r/f")), 0, "/r/f");
    assert !gone.docs[1].live;
    HeldMember(db.docs, Invalidation(1, 1));
    HeldMember(gone.docs, Invalidation(1, 1));
    SwapSound(gone, 1, 1, place, digest, size);
  }

  /** And a job that was to re-path the document loses to one that flips it first, place and all. */
  lemma FlippedUnderARepath(db: Db, place: Place, first: string, second: string, size: int)
    requires Sound(db) && 1 in db.docs && db.docs[1].live && db.docs[1].version == 1
    requires first !in db.versions && second !in db.versions && first != second && DocsAt(db, db.docs[1].mp, place.path) <= {1}
    ensures var (mid, won) := Swap(db, 1, 1, None, first, size);
            && won == Won && 1 in mid.docs
            && Swap(mid, 1, 1, Some(place), second, size) == (mid.(nextVersion := mid.nextVersion + 1), Lost)
  {
    var d := UpsertContentVersion(db, first, size);
    FlipShape(d, 1, 1, d.versions[first].id);
    var mid := Swap(db, 1, 1, None, first, size).0;
    assert forall id :: id in db.docs && id != 1 ==> LiveAt(mid, id, db.docs[1].mp, place.path) == LiveAt(db, id, db.docs[1].mp, place.path);
    assert DocsAt(mid, mid.docs[1].mp, place.path) - {1} == DocsAt(db, db.docs[1].mp, place.path) - {1};
  }
}
