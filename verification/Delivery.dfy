/** Redelivery, aborted transactions and restarts: events take effect exactly once, and nothing is
    consumed before every root has been scanned. */
module Delivery {
  import opened Common
  import opened Paths
  import opened Tables
  import opened Reconcile
  import opened Scans
  import opened Replay

  /** One delivery of event number `index` of the log; an aborted transaction leaves no trace. */
  datatype Attempt = Attempt(index: nat, commits: bool)

  /** How many events of the log have taken effect. */
  function Progress(attempts: seq<Attempt>): (n: nat)
    ensures n <= |attempts|
    decreases |attempts|
  {
    if attempts == [] then 0
    else
      var n := Progress(attempts[..|attempts| - 1]);
      var a := attempts[|attempts| - 1];
      if a.commits && a.index == n then n + 1 else n
  }

  /** Redelivery in any order, as long as it never skips an event that has not yet taken effect. */
  predicate NeverSkips(attempts: seq<Attempt>, log: nat)
    decreases |attempts|
  {
    attempts == []
    || (NeverSkips(attempts[..|attempts| - 1], log)
        && attempts[|attempts| - 1].index <= Progress(attempts[..|attempts| - 1])
        && attempts[|attempts| - 1].index < log)
  }

  lemma {:induction false} ProgressWithinLog(attempts: seq<Attempt>, log: nat)
    requires NeverSkips(attempts, log)
    ensures Progress(attempts) <= log
    decreases |attempts|
  {
    if attempts != [] {
      ProgressWithinLog(attempts[..|attempts| - 1], log);
    }
  }

  function Deliver(cfg: Config, db: Db, evs: seq<Event>, attempts: seq<Attempt>): Db
    requires forall i :: 0 <= i < |attempts| ==> attempts[i].index < |evs|
    decreases |attempts|
  {
    if attempts == [] then db
    else
      var before := Deliver(cfg, db, evs, attempts[..|attempts| - 1]);
      var a := attempts[|attempts| - 1];
      if a.commits then ApplyEvent(cfg, before, evs[a.index]) else before
  }

  lemma {:induction false} NeverSkipsIndexes(attempts: seq<Attempt>, log: nat)
    requires NeverSkips(attempts, log)
    ensures forall i :: 0 <= i < |attempts| ==> attempts[i].index < log
    decreases |attempts|
  {
    if attempts != [] {
      var init := attempts[..|attempts| - 1];
      NeverSkipsIndexes(init, log);
      forall i | 0 <= i < |attempts| ensures attempts[i].index < log {
        if i < |init| { assert attempts[i] == init[i]; }
      }
    }
  }

  /** Exactly once: any such redelivery leaves the tables and the requested jobs exactly as delivering the
      events that took effect once, in order, does. */
  lemma {:induction false} ExactlyOnce(cfg: Config, db: Db, evs: seq<Event>, attempts: seq<Attempt>)
    requires Follows(evs, db.watermark) && NeverSkips(attempts, |evs|)
    requires forall i :: 0 <= i < |attempts| ==> attempts[i].index < |evs|
    ensures Progress(attempts) <= |evs|
    ensures Deliver(cfg, db, evs, attempts) == ApplyAll(cfg, db, evs[..Progress(attempts)])
    decreases |attempts|
  {
    hide ApplyEvent, Follows;
    ProgressWithinLog(attempts, |evs|);
    if attempts != [] {
      var init, a := attempts[..|attempts| - 1], attempts[|attempts| - 1];
      ExactlyOnce(cfg, db, evs, init);
      var n := Progress(init);
      if a.commits && a.index == n {
        assert evs[..n + 1][..n] == evs[..n];
      } else if a.commits {
        StaleIsDropped(cfg, db, evs, n, a.index);
      }
    }
  }

  lemma StaleIsDropped(cfg: Config, db: Db, evs: seq<Event>, n: nat, i: nat)
    requires Follows(evs, db.watermark) && i < n <= |evs|
    ensures var applied := ApplyAll(cfg, db, evs[..n]);
            ApplyEvent(cfg, applied, evs[i]) == applied
  {
    hide ApplyKind, ApplyAll, ToInt64;
    ApplyAllMark(cfg, db, evs[..n]);
  }

  /** No step ever moves the watermark back. */
  lemma WatermarkNeverDecreases(cfg: Config, db: Db, step: Step)
    ensures After(cfg, db, step).watermark >= db.watermark
  {
    hide ReconcileRoot, Promote, ApplyKind;
    match step
    case Applied(ev) => KindKeepsWatermark(cfg, db, ev);
    case Rescanned(m, stream) => RootKeepsWatermark(cfg, db, m, stream);
    case Abandoned =>
    case Marked(at) =>
    case Promoted(mp, path, observed, digest, size) => PromoteEpochs(db, mp, path, observed, digest, size);
  }

  // ---- bootstrap ----

  /** Where the process is: between runs, part way through rescanning the roots, or reading its stream. */
  datatype Phase = Idle | Scanning(head: int, next: nat) | Reading

  /** scanned remembers which roots have ever been reconciled; the program keeps no such record. */
  datatype Process = Process(db: Db, phase: Phase, scanned: set<nat>)

  datatype Move =
    | Begin(ringHead: nat)
    | ScanRoot(stream: seq<Scanned>)
    | AbortScan // a root's transaction aborts, which ends the run; its epoch stays drawn
    | CommitHead
    | Receive(ev: Event)
    | Gap(ringHead: nat)
    | Work(mp: int, path: Path, observed: Observation, digest: string, size: int)
    | Stop // an error, a crash or a restart, wherever it strikes

  function Advance(cfg: Config, p: Process, move: Move): Process {
    match move
    case Begin(ringHead) =>
      if p.phase != Idle then p
      else if p.db.watermark == 0 then p.(phase := Scanning(ToInt64(ringHead), 0))
      else p.(phase := Reading)
    case ScanRoot(stream) =>
      if p.phase.Scanning? && p.phase.next < |cfg.mountpoints| then
        Process(ReconcileRoot(cfg, p.db, cfg.mountpoints[p.phase.next], stream),
                p.phase.(next := p.phase.next + 1), p.scanned + {p.phase.next})
      else p
    case AbortScan =>
      if p.phase.Scanning? && p.phase.next < |cfg.mountpoints| then p.(db := NextScanEpoch(p.db), phase := Idle) else p
    case CommitHead =>
      if p.phase.Scanning? && p.phase.next >= |cfg.mountpoints| then
        p.(db := SetWatermark(p.db, p.phase.head), phase := Reading)
      else p
    case Receive(ev) => if p.phase == Reading then p.(db := ApplyEvent(cfg, p.db, ev)) else p
    case Gap(ringHead) => if p.phase == Reading then p.(phase := Scanning(ToInt64(ringHead), 0)) else p
    case Work(mp, path, observed, digest, size) => p.(db := Promote(p.db, mp, path, observed, digest, size))
    case Stop => p.(phase := Idle)
  }

  function Lived(cfg: Config, p: Process, moves: seq<Move>): Process
    decreases |moves|
  {
    if moves == [] then p else Advance(cfg, Lived(cfg, p, moves[..|moves| - 1]), moves[|moves| - 1])
  }

  function Live(cfg: Config, moves: seq<Move>): Process {
    Lived(cfg, Process(EMPTY_DB, Idle, {}), moves)
  }

  ghost predicate Covered(cfg: Config, p: Process, n: nat) {
    forall i :: 0 <= i < n && i < |cfg.mountpoints| ==> i in p.scanned
  }

  ghost predicate ScannedFirst(cfg: Config, p: Process) {
    && p.db.watermark >= 0
    && (p.db.watermark != 0 || p.phase == Reading ==> Covered(cfg, p, |cfg.mountpoints|))
    && (p.phase.Scanning? ==> Covered(cfg, p, p.phase.next))
  }

  /** In every state of every run, a nonzero watermark, and likewise reading the stream at all, means every
      root has been scanned at least once: a bootstrap that failed part way is always taken up again. */
  lemma {:induction false} NothingReadBeforeEveryRootScanned(cfg: Config, moves: seq<Move>)
    ensures ScannedFirst(cfg, Live(cfg, moves))
    decreases |moves|
  {
    if moves != [] {
      var before := Live(cfg, moves[..|moves| - 1]);
      NothingReadBeforeEveryRootScanned(cfg, moves[..|moves| - 1]);
      AdvanceKeepsCoverage(cfg, before, moves[|moves| - 1]);
      hide Advance, ScannedFirst;
    }
  }

  lemma AdvanceKeepsCoverage(cfg: Config, p: Process, move: Move)
    requires ScannedFirst(cfg, p)
    ensures ScannedFirst(cfg, Advance(cfg, p, move))
  {
    hide ReconcileRoot, Promote, ApplyKind;
    match move
    case ScanRoot(stream) =>
      if p.phase.Scanning? && p.phase.next < |cfg.mountpoints| {
        RootKeepsWatermark(cfg, p.db, cfg.mountpoints[p.phase.next], stream);
      }
    case Receive(ev) => KindKeepsWatermark(cfg, p.db, ev);
    case Work(mp, path, observed, digest, size) => PromoteEpochs(p.db, mp, path, observed, digest, size);
    case _ =>
  }
}
