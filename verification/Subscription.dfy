/** One subscription as the program drives it, and why every run of it is a run of the steps the theorems are
    about. */
module Subscription {
  import opened Common
  import opened Tables
  import opened Reconcile
  import opened Reconcilers
  import Delivery

  /** A full rescan: the ring head read before it, a walk of each root, and the root it fails at, if any. */
  datatype Rescan = Rescan(ringHead: nat, walks: seq<seq<Scanned>>, broken: Option<nat>)

  /** What the stream delivers. */
  datatype Item = Received(ev: Event, commits: bool) | Gap(rescan: Rescan)

  predicate Complete(cfg: Config, r: Rescan) {
    |r.walks| == |cfg.mountpoints|
  }

  predicate Breaks(r: Rescan) {
    r.broken.Some? && r.broken.value < |r.walks|
  }

  function Rescanning(cfg: Config, db: Db, r: Rescan): Db
    requires Complete(cfg, r)
  {
    if Breaks(r) then NextScanEpoch(ReconcileRoots(cfg, db, r.walks, r.broken.value))
    else SetWatermark(ReconcileRoots(cfg, db, r.walks, |r.walks|), ToInt64(r.ringHead))
  }

  predicate Deliverable(cfg: Config, items: seq<Item>) {
    forall i :: 0 <= i < |items| && items[i].Gap? ==> Complete(cfg, items[i].rescan)
  }

  /** drive: the first failure ends it, so nothing after a failed item is applied. */
  function Driven(cfg: Config, db: Db, items: seq<Item>): (Db, bool)
    requires Deliverable(cfg, items)
    decreases |items|
  {
    if items == [] then (db, true)
    else
      var (before, ok) := Driven(cfg, db, items[..|items| - 1]);
      if !ok then (before, false)
      else
        match items[|items| - 1]
        case Received(ev, commits) => (if commits then ApplyEvent(cfg, before, ev) else before, commits)
        case Gap(r) => (Rescanning(cfg, before, r), !Breaks(r))
  }

  /** runOnce: bootstrap while the store has never been reconciled, then drive. */
  function RanOnce(cfg: Config, db: Db, boot: Rescan, items: seq<Item>): (Db, bool)
    requires Complete(cfg, boot) && Deliverable(cfg, items)
  {
    if db.watermark != 0 then Driven(cfg, db, items)
    else if Breaks(boot) then (Rescanning(cfg, db, boot), false)
    else Driven(cfg, Rescanning(cfg, db, boot), items)
  }

  // ---- every subscription is a run of steps ----

  lemma {:induction false} RunJoins(cfg: Config, db: Db, a: seq<Step>, b: seq<Step>)
    ensures Run(cfg, Run(cfg, db, a), b) == Run(cfg, db, a + b)
    decreases |b|
  {
    hide After;
    if b == [] {
      assert a + b == a;
    } else {
      RunJoins(cfg, db, a, b[..|b| - 1]);
      assert (a + b)[..|a + b| - 1] == a + b[..|b| - 1];
    }
  }

  ghost predicate Reaches(cfg: Config, db: Db, after: Db) {
    exists steps :: Run(cfg, db, steps) == after
  }

  lemma ReachesStep(cfg: Config, db: Db, mid: Db, step: Step)
    requires Reaches(cfg, db, mid)
    ensures Reaches(cfg, db, After(cfg, mid, step))
  {
    hide After;
    var steps :| Run(cfg, db, steps) == mid;
    assert [step][..0] == [];
    assert Run(cfg, mid, [step]) == After(cfg, mid, step);
    RunJoins(cfg, db, steps, [step]);
  }

  lemma ReachesItself(cfg: Config, db: Db)
    ensures Reaches(cfg, db, db)
  {
    assert Run(cfg, db, []) == db;
  }

  lemma {:induction false} RootsReach(cfg: Config, db: Db, mid: Db, walks: seq<seq<Scanned>>, n: nat)
    requires n <= |walks| && n <= |cfg.mountpoints| && Reaches(cfg, db, mid)
    ensures Reaches(cfg, db, ReconcileRoots(cfg, mid, walks, n))
    decreases n
  {
    hide ReconcileRoot, Reaches;
    if n > 0 {
      RootsReach(cfg, db, mid, walks, n - 1);
      ReachesStep(cfg, db, ReconcileRoots(cfg, mid, walks, n - 1), Rescanned(cfg.mountpoints[n - 1], walks[n - 1]));
    }
  }

  lemma RescanReaches(cfg: Config, db: Db, mid: Db, r: Rescan)
    requires Complete(cfg, r) && Reaches(cfg, db, mid)
    ensures Reaches(cfg, db, Rescanning(cfg, mid, r))
  {
    hide Reaches, ReconcileRoots;
    var n := if Breaks(r) then r.broken.value else |r.walks|;
    RootsReach(cfg, db, mid, r.walks, n);
    ReachesStep(cfg, db, ReconcileRoots(cfg, mid, r.walks, n), if Breaks(r) then Abandoned else Marked(ToInt64(r.ringHead)));
  }

  lemma {:induction false} DrivenReaches(cfg: Config, db: Db, mid: Db, items: seq<Item>)
    requires Deliverable(cfg, items) && Reaches(cfg, db, mid)
    ensures Reaches(cfg, db, Driven(cfg, mid, items).0)
    decreases |items|
  {
    hide Reaches, ApplyEvent, Rescanning;
    if items != [] {
      DrivenReaches(cfg, db, mid, items[..|items| - 1]);
      var before := Driven(cfg, mid, items[..|items| - 1]).0;
      match items[|items| - 1]
      case Received(ev, commits) => ReachesStep(cfg, db, before, Applied(ev));
      case Gap(r) => RescanReaches(cfg, db, before, r);
    }
  }

  /** Whatever the stream delivers and wherever it fails, what one subscription leaves is what some sequence of
      steps leaves; so what holds over every run of steps holds here. */
  lemma SubscriptionIsARun(cfg: Config, db: Db, boot: Rescan, items: seq<Item>)
    requires Complete(cfg, boot) && Deliverable(cfg, items)
    ensures exists steps :: Run(cfg, db, steps) == RanOnce(cfg, db, boot, items).0
  {
    ReachesItself(cfg, db);
    RescanReaches(cfg, db, db, boot);
    DrivenReaches(cfg, db, db, items);
    DrivenReaches(cfg, db, Rescanning(cfg, db, boot), items);
    hide Driven, Rescanning;
    assert Reaches(cfg, db, RanOnce(cfg, db, boot, items).0);
  }

  /** Nothing follows a failure: a subscription that fails has applied exactly the items before it. */
  lemma {:induction false} FailureEndsIt(cfg: Config, db: Db, items: seq<Item>, n: nat)
    requires Deliverable(cfg, items) && n <= |items| && Deliverable(cfg, items[..n])
    requires !Driven(cfg, db, items[..n]).1
    ensures Driven(cfg, db, items) == Driven(cfg, db, items[..n])
    decreases |items|
  {
    hide ApplyEvent, Rescanning;
    if n == |items| {
      assert items[..n] == items;
    } else {
      assert items[..|items| - 1][..n] == items[..n];
      FailureEndsIt(cfg, db, items[..|items| - 1], n);
    }
  }

  ghost predicate Fails(item: Item) {
    match item
    case Received(_, commits) => !commits
    case Gap(r) => Breaks(r)
  }

  lemma {:induction false} DrivenEnds(cfg: Config, db: Db, items: seq<Item>)
    requires Deliverable(cfg, items)
    ensures Driven(cfg, db, items).1 <==> forall item :: item in items ==> !Fails(item)
    decreases |items|
  {
    hide ApplyEvent, Rescanning;
    if items != [] {
      var init, last := items[..|items| - 1], items[|items| - 1];
      DrivenEnds(cfg, db, init);
      assert forall item :: item in items <==> item in init || item == last by {
        assert items == init + [last];
      }
      assert Driven(cfg, db, items).1 <==> Driven(cfg, db, init).1 && !Fails(last);
    }
  }

  /** A subscription ends without an error exactly when neither its bootstrap, if it had one, nor any item failed;
      and after a failed bootstrap it takes no item at all. */
  lemma EndsWellIff(cfg: Config, db: Db, boot: Rescan, items: seq<Item>)
    requires Complete(cfg, boot) && Deliverable(cfg, items)
    ensures RanOnce(cfg, db, boot, items).1
       <==> (db.watermark != 0 || !Breaks(boot)) && forall item :: item in items ==> !Fails(item)
    ensures db.watermark == 0 && Breaks(boot) ==> RanOnce(cfg, db, boot, items) == RanOnce(cfg, db, boot, [])
  {
    DrivenEnds(cfg, db, items);
    DrivenEnds(cfg, Rescanning(cfg, db, boot), items);
    hide Driven, Rescanning;
  }

  // ---- and a life of the process ----

  ghost predicate Gets(cfg: Config, p: Delivery.Process, q: Delivery.Process) {
    exists moves :: Delivery.Lived(cfg, p, moves) == q
  }

  lemma GetsItself(cfg: Config, p: Delivery.Process)
    ensures Gets(cfg, p, p)
  {
    assert Delivery.Lived(cfg, p, []) == p;
  }

  lemma GetsMove(cfg: Config, p: Delivery.Process, q: Delivery.Process, move: Delivery.Move)
    requires Gets(cfg, p, q)
    ensures Gets(cfg, p, Delivery.Advance(cfg, q, move))
  {
    hide Delivery.Advance;
    var moves :| Delivery.Lived(cfg, p, moves) == q;
    assert (moves + [move])[..|moves|] == moves;
    assert Delivery.Lived(cfg, p, moves + [move]) == Delivery.Advance(cfg, q, move);
  }

  /** What the process gets to with these tables, in this phase. */
  ghost predicate Arrives(cfg: Config, p: Delivery.Process, db: Db, phase: Delivery.Phase) {
    exists q :: Gets(cfg, p, q) && q.db == db && q.phase == phase
  }

  lemma {:induction false} RootsArrive(cfg: Config, p: Delivery.Process, db: Db, walks: seq<seq<Scanned>>, head: int, n: nat)
    requires n <= |walks| == |cfg.mountpoints| && Arrives(cfg, p, db, Delivery.Scanning(head, 0))
    ensures Arrives(cfg, p, ReconcileRoots(cfg, db, walks, n), Delivery.Scanning(head, n))
    decreases n
  {
    hide ReconcileRoot, Gets;
    if n > 0 {
      RootsArrive(cfg, p, db, walks, head, n - 1);
      var q :| Gets(cfg, p, q) && q.db == ReconcileRoots(cfg, db, walks, n - 1) && q.phase == Delivery.Scanning(head, n - 1);
      GetsMove(cfg, p, q, Delivery.ScanRoot(walks[n - 1]));
    }
  }

  lemma RescanArrives(cfg: Config, p: Delivery.Process, db: Db, r: Rescan)
    requires Complete(cfg, r) && Arrives(cfg, p, db, Delivery.Scanning(ToInt64(r.ringHead), 0))
    ensures Arrives(cfg, p, Rescanning(cfg, db, r), if Breaks(r) then Delivery.Idle else Delivery.Reading)
  {
    hide ReconcileRoots, Gets, ToInt64;
    var n := if Breaks(r) then r.broken.value else |r.walks|;
    RootsArrive(cfg, p, db, r.walks, ToInt64(r.ringHead), n);
    var q :| Gets(cfg, p, q) && q.db == ReconcileRoots(cfg, db, r.walks, n) && q.phase == Delivery.Scanning(ToInt64(r.ringHead), n);
    GetsMove(cfg, p, q, if Breaks(r) then Delivery.AbortScan else Delivery.CommitHead);
  }

  lemma {:induction false} DrivenArrives(cfg: Config, p: Delivery.Process, db: Db, items: seq<Item>)
    requires Deliverable(cfg, items) && Arrives(cfg, p, db, Delivery.Reading)
    ensures var (after, ok) := Driven(cfg, db, items);
            Arrives(cfg, p, after, if ok then Delivery.Reading else Delivery.Idle)
    decreases |items|
  {
    hide Gets, ApplyEvent, Rescanning, ToInt64;
    if items != [] {
      DrivenArrives(cfg, p, db, items[..|items| - 1]);
      var (before, ok) := Driven(cfg, db, items[..|items| - 1]);
      if ok {
        var q :| Gets(cfg, p, q) && q.db == before && q.phase == Delivery.Reading;
        match items[|items| - 1] {
          case Received(ev, commits) => GetsMove(cfg, p, q, if commits then Delivery.Receive(ev) else Delivery.Stop);
          case Gap(r) =>
            GetsMove(cfg, p, q, Delivery.Gap(r.ringHead));
            RescanArrives(cfg, p, before, r);
        }
      }
    }
  }

  /** Whatever one subscription leaves, some moves of the process from where it stood leave, between runs again:
      what holds in every state of every life holds after any number of subscriptions. */
  lemma SubscriptionIsALife(cfg: Config, p: Delivery.Process, boot: Rescan, items: seq<Item>)
    requires p.phase == Delivery.Idle && Complete(cfg, boot) && Deliverable(cfg, items)
    ensures exists moves ::
              var q := Delivery.Lived(cfg, p, moves);
              q.db == RanOnce(cfg, p.db, boot, items).0 && q.phase == Delivery.Idle
  {
    hide Driven, Rescanning, Gets, ToInt64;
    GetsItself(cfg, p);
    GetsMove(cfg, p, p, Delivery.Begin(boot.ringHead));
    if p.db.watermark != 0 {
      DrivenArrives(cfg, p, p.db, items);
    } else {
      RescanArrives(cfg, p, p.db, boot);
      if !Breaks(boot) {
        DrivenArrives(cfg, p, Rescanning(cfg, p.db, boot), items);
      }
    }
    var after := RanOnce(cfg, p.db, boot, items).0;
    var q :| Gets(cfg, p, q) && q.db == after && (q.phase == Delivery.Idle || q.phase == Delivery.Reading);
    GetsMove(cfg, p, q, Delivery.Stop);
    GottenBy(cfg, p, Delivery.Advance(cfg, q, Delivery.Stop));
  }

  lemma GottenBy(cfg: Config, p: Delivery.Process, q: Delivery.Process)
    requires Gets(cfg, p, q)
    ensures exists moves :: Delivery.Lived(cfg, p, moves) == q
  {
  }

  // ---- the loops ----

  class Subscriber {
    const r: Reconciler

    constructor (r: Reconciler)
      ensures this.r == r
    {
      this.r := r;
    }

    method ReconcileEverything(rescan: Rescan) returns (ok: bool)
      requires UniqueLive(r.tx.db) && Complete(r.cfg, rescan)
      modifies r.tx
      ensures UniqueLive(r.tx.db) && ok == !Breaks(rescan)
      ensures r.tx.db == Rescanning(r.cfg, old(r.tx.db), rescan)
    {
      hide UniqueLive, ReconcileRoots;
      ok := r.ReconcileAll(rescan.walks, ToInt64(rescan.ringHead), rescan.broken);
    }

    method Drive(items: seq<Item>) returns (ok: bool)
      requires UniqueLive(r.tx.db) && Deliverable(r.cfg, items)
      modifies r.tx
      ensures UniqueLive(r.tx.db) && (r.tx.db, ok) == Driven(r.cfg, old(r.tx.db), items)
    {
      hide UniqueLive, Reconcile.ApplyEvent, Rescanning, Complete;
      ghost var begun := r.tx.db;
      var i := 0;
      while i < |items|
        invariant 0 <= i <= |items| && UniqueLive(r.tx.db)
        invariant Driven(r.cfg, begun, items[..i]) == (r.tx.db, true)
      {
        assert items[..i + 1][..i] == items[..i];
        var item := items[i];
        i := i + 1;
        match item {
          case Received(ev, commits) =>
            r.ApplyEvent(ev, commits);
            ok := commits;
          case Gap(rescan) =>
            ok := ReconcileEverything(rescan);
        }
        assert Driven(r.cfg, begun, items[..i]) == (r.tx.db, ok);
        if !ok {
          FailureEndsIt(r.cfg, begun, items, i);
          return;
        }
      }
      assert items[..i] == items;
      ok := true;
    }

    /** The ring head is read before the scan, so what happens during it is still delivered. */
    method RunOnce(boot: Rescan, items: seq<Item>) returns (ok: bool)
      requires UniqueLive(r.tx.db) && Complete(r.cfg, boot) && Deliverable(r.cfg, items)
      modifies r.tx
      ensures UniqueLive(r.tx.db) && (r.tx.db, ok) == RanOnce(r.cfg, old(r.tx.db), boot, items)
    {
      hide UniqueLive, Driven, Rescanning;
      if r.tx.db.watermark == 0 {
        ok := ReconcileEverything(boot);
        if !ok {
          return;
        }
      }
      ok := Drive(items);
    }
  }
}
