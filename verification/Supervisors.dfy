/** Starting units in order: the depth-first After= order and the propagation of failures through Requires=. */
module Supervisors {

  /** What the generated unit says; requires is Requires= together with BindsTo=. */
  datatype Unit = Unit(after: seq<string>, required: seq<string>)

  /** The selected units. Names that are not selected may still be mentioned. */
  type Units = map<string, Unit>

  // ---- order ----

  /** What visit's closures share: done, the walk's own seen, and out. */
  datatype Walk = Walk(done: set<string>, seen: set<string>, out: seq<string>)

  function Visit(units: Units, n: string, w: Walk): (r: Walk)
    requires n in units
    ensures w.seen <= r.seen
    decreases |units.Keys - w.seen|, 0
  {
    if n in w.done || n in w.seen then w
    else
      Smaller(units.Keys, w.seen, n);
      var below := VisitAll(units, units[n].after, w.(seen := w.seen + {n}));
      Walk(below.done + {n}, below.seen, below.out + [n])
  }

  function VisitAll(units: Units, deps: seq<string>, w: Walk): (r: Walk)
    ensures w.seen <= r.seen
    decreases |units.Keys - w.seen|, 1 + |deps|
  {
    if deps == [] then w
    else if deps[0] !in units then VisitAll(units, deps[1..], w)
    else
      var first := Visit(units, deps[0], w);
      NotLarger(units.Keys, w.seen, first.seen);
      VisitAll(units, deps[1..], first)
  }

  lemma Smaller(all: set<string>, seen: set<string>, n: string)
    requires n in all && n !in seen
    ensures |all - (seen + {n})| < |all - seen|
  {
    assert all - seen == (all - (seen + {n})) + {n};
  }

  lemma NotLarger(all: set<string>, seen: set<string>, more: set<string>)
    requires seen <= more
    ensures |all - more| <= |all - seen|
  {
    assert all - seen == (all - more) + ((all - seen) - (all - more));
  }

  /** The outer loop: each name starts a walk with nothing seen. */
  function VisitRoots(units: Units, names: seq<string>, w: Walk): Walk
    decreases |names|
  {
    if names == [] then w
    else
      var before := VisitRoots(units, names[..|names| - 1], w);
      var n := names[|names| - 1];
      if n in units then Visit(units, n, before.(seen := {})) else before
  }

  function Order(units: Units, names: seq<string>): seq<string> {
    VisitRoots(units, names, Walk({}, {}, [])).out
  }

  // ---- what the order guarantees ----

  predicate Edge(units: Units, a: string, b: string) {
    a in units && b in units && b in units[a].after
  }

  ghost predicate ReachesIn(units: Units, a: string, b: string, k: nat)
    decreases k
  {
    if k == 0 then a == b else exists c :: Edge(units, a, c) && ReachesIn(units, c, b, k - 1)
  }

  /** A path of After= edges, possibly empty. */
  ghost predicate Reaches(units: Units, a: string, b: string) {
    exists k: nat :: ReachesIn(units, a, b, k)
  }

  lemma {:induction false} OneFurther(units: Units, a: string, b: string, c: string, k: nat)
    requires ReachesIn(units, a, b, k) && Edge(units, b, c)
    ensures ReachesIn(units, a, c, k + 1)
    decreases k
  {
    if k == 0 {
      assert ReachesIn(units, c, c, 0);
    } else {
      var d :| Edge(units, a, d) && ReachesIn(units, d, b, k - 1);
      OneFurther(units, d, b, c, k - 1);
    }
  }

  lemma ReachesFurther(units: Units, a: string, b: string, c: string)
    requires Reaches(units, a, b) && Edge(units, b, c)
    ensures Reaches(units, a, c)
  {
    var k: nat :| ReachesIn(units, a, b, k);
    OneFurther(units, a, b, c, k);
  }

  /** Where a name stands in the list, or past its end. */
  function Position(out: seq<string>, n: string): (p: nat)
    ensures p <= |out| && (p < |out| <==> n in out) && (p < |out| ==> out[p] == n)
    ensures forall i :: 0 <= i < p ==> out[i] != n
  {
    if out == [] then 0 else if out[0] == n then 0 else 1 + Position(out[1..], n)
  }

  predicate Distinct(out: seq<string>) {
    forall i, j :: 0 <= i < j < |out| ==> out[i] != out[j]
  }

  /** Every selected dependency of every listed unit stands before it, unless it depends on it in turn. */
  ghost predicate DependenciesFirst(units: Units, out: seq<string>) {
    forall i, d :: 0 <= i < |out| && Edge(units, out[i], d) ==> d in out[..i] || Reaches(units, d, out[i])
  }

  /** done is what has been listed; what was seen and is not done is still being visited, above. */
  ghost predicate WalkFits(units: Units, w: Walk) {
    && (forall n :: n in w.done <==> n in w.out)
    && w.done <= units.Keys && w.seen <= units.Keys
    && Distinct(w.out) && DependenciesFirst(units, w.out)
  }

  /** Everything still being visited leads to n. */
  ghost predicate Above(units: Units, w: Walk, n: string) {
    forall s :: s in w.seen - w.done ==> Reaches(units, s, n)
  }

  predicate Grows(w: Walk, r: Walk) {
    w.out <= r.out && w.done <= r.done && r.seen - r.done == w.seen - w.done
  }

  lemma {:induction false} VisitFits(units: Units, n: string, w: Walk)
    requires n in units && WalkFits(units, w) && Above(units, w, n)
    ensures var r := Visit(units, n, w);
            WalkFits(units, r) && Grows(w, r) && (n in r.done || n in w.seen)
    decreases |units.Keys - w.seen|, 0
  {
    if n !in w.done && n !in w.seen {
      Smaller(units.Keys, w.seen, n);
      var entered := w.(seen := w.seen + {n});
      assert ReachesIn(units, n, n, 0);
      VisitAllFits(units, n, units[n].after, entered);
      var below := VisitAll(units, units[n].after, entered);
      Finish(units, n, w, below);
    }
  }

  /** Listing n once all its dependencies are. */
  lemma Finish(units: Units, n: string, w: Walk, below: Walk)
    requires n in units && n !in w.done && n !in w.seen && WalkFits(units, w)
    requires WalkFits(units, below) && Grows(w.(seen := w.seen + {n}), below)
    requires forall d :: Edge(units, n, d) ==> d in below.done || Reaches(units, d, n)
    ensures var r := Walk(below.done + {n}, below.seen, below.out + [n]);
            WalkFits(units, r) && Grows(w, r)
  {
    var r := Walk(below.done + {n}, below.seen, below.out + [n]);
    assert n in below.seen - below.done;
    assert r.seen - r.done == (below.seen - below.done) - {n};
    assert (w.seen + {n}) - w.done == (w.seen - w.done) + {n};
    assert Distinct(r.out);
    forall i, d | 0 <= i < |r.out| && Edge(units, r.out[i], d) ensures d in r.out[..i] || Reaches(units, d, r.out[i]) {
      assert r.out[..i] == if i < |below.out| then below.out[..i] else below.out;
    }
  }

  lemma {:induction false} VisitAllFits(units: Units, n: string, deps: seq<string>, w: Walk)
    requires n in units && WalkFits(units, w) && Above(units, w, n)
    requires forall d :: d in deps ==> d in units[n].after
    ensures var r := VisitAll(units, deps, w);
            && WalkFits(units, r) && Grows(w, r)
            && forall d :: d in deps && d in units ==> d in r.done || Reaches(units, d, n)
    decreases |units.Keys - w.seen|, 1 + |deps|
  {
    if deps == [] {
    } else if deps[0] !in units {
      VisitAllFits(units, n, deps[1..], w);
    } else {
      var d := deps[0];
      assert Edge(units, n, d);
      forall s | s in w.seen - w.done ensures Reaches(units, s, d) {
        ReachesFurther(units, s, n, d);
      }
      VisitFits(units, d, w);
      var first := Visit(units, d, w);
      NotLarger(units.Keys, w.seen, first.seen);
      VisitAllFits(units, n, deps[1..], first);
    }
  }

  lemma {:induction false} RootsFit(units: Units, names: seq<string>)
    ensures var w := VisitRoots(units, names, Walk({}, {}, []));
            WalkFits(units, w) && forall n :: n in names && n in units ==> n in w.done
    decreases |names|
  {
    if names != [] {
      var init, n := names[..|names| - 1], names[|names| - 1];
      RootsFit(units, init);
      var before := VisitRoots(units, init, Walk({}, {}, []));
      if n in units {
        VisitFits(units, n, before.(seen := {}));
      }
    }
  }

  /** Each selected unit is listed exactly once, cycles or no cycles, and every selected After= dependency
      stands before the unit unless it depends on that unit in turn. */
  lemma OrderIsExact(units: Units, names: seq<string>)
    requires forall n :: n in units ==> n in names
    ensures var out := Order(units, names);
            && (forall n :: n in out <==> n in units) && Distinct(out)
            && DependenciesFirst(units, out)
  {
    RootsFit(units, names);
  }

  /** Without cycles, dependencies simply come first. */
  lemma AcyclicOrder(units: Units, names: seq<string>, n: string, d: string)
    requires forall n :: n in units ==> n in names
    requires Edge(units, n, d) && !Reaches(units, d, n)
    ensures var out := Order(units, names);
            Position(out, d) < Position(out, n) < |out|
  {
    OrderIsExact(units, names);
    var out := Order(units, names);
    var i := Position(out, n);
    assert out[i] == n;
    assert d in out[..i];
    var j :| 0 <= j < i && out[j] == d;
  }

  // ---- starting ----

  /** How a unit's own commands go, when they are run. */
  datatype Outcome = PreFails | StartFails | NeverReady | Ready

  datatype State = Started | Failed | Skipped

  /** ran lists the units whose ExecStart was run. */
  datatype Board = Board(state: map<string, State>, ran: seq<string>)

  predicate Blocks(b: Board, dep: string) {
    dep in b.state && b.state[dep] != Started
  }

  function Blockers(b: Board, deps: seq<string>): seq<string> {
    if deps == [] then [] else if Blocks(b, deps[0]) then [deps[0]] + Blockers(b, deps[1..]) else Blockers(b, deps[1..])
  }

  lemma {:induction false} BlockersExact(b: Board, deps: seq<string>)
    ensures forall d :: d in Blockers(b, deps) <==> d in deps && Blocks(b, d)
  {
    if deps != [] {
      BlockersExact(b, deps[1..]);
    }
  }

  function StartUnit(units: Units, outcomes: map<string, Outcome>, n: string, b: Board): Board
    requires n in units && n in outcomes
  {
    if Blockers(b, units[n].required) != [] then b.(state := b.state[n := Skipped])
    else
      match outcomes[n]
      case PreFails => b.(state := b.state[n := Failed])
      case StartFails => Board(b.state[n := Failed], b.ran + [n])
      case NeverReady => Board(b.state[n := Failed], b.ran + [n])
      case Ready => Board(b.state[n := Started], b.ran + [n])
  }

  function StartAll(units: Units, outcomes: map<string, Outcome>, names: seq<string>, b: Board): Board
    requires forall n :: n in names ==> n in units && n in outcomes
    decreases |names|
  {
    if names == [] then b
    else StartUnit(units, outcomes, names[|names| - 1], StartAll(units, outcomes, names[..|names| - 1], b))
  }

  predicate Requires(units: Units, a: string, b: string) {
    a in units && b in units && b in units[a].required
  }

  /** A path of Requires= edges. */
  ghost predicate NeedsIn(units: Units, a: string, b: string, k: nat)
    decreases k
  {
    if k == 0 then a == b else exists c :: Requires(units, a, c) && NeedsIn(units, c, b, k - 1)
  }

  /** Every selected requirement stands before what requires it. */
  ghost predicate RequirementsFirst(units: Units, out: seq<string>) {
    forall i, r :: 0 <= i < |out| && Requires(units, out[i], r) ==> r in out[..i]
  }

  /** What start leaves, unit by unit: skipped when a selected requirement is not started, and otherwise as its
      own commands went. */
  predicate Settled(units: Units, outcomes: map<string, Outcome>, b: Board, n: string)
    requires n in units && n in outcomes && n in b.state
  {
    && (b.state[n] == Skipped <==> exists r :: r in units[n].required && Requires(units, n, r) && Blocks(b, r))
    && (b.state[n] == Started ==> outcomes[n] == Ready)
    && (b.state[n] == Failed ==> outcomes[n] != Ready)
    && (n in b.ran <==> b.state[n] != Skipped && outcomes[n] != PreFails)
  }

  /** The board after some of the units, in order. */
  ghost predicate BoardFits(units: Units, outcomes: map<string, Outcome>, names: seq<string>, b: Board)
    requires forall n :: n in names ==> n in units && n in outcomes
  {
    && (forall n :: n in b.state <==> n in names)
    && (forall n :: n in b.ran ==> n in names)
    && forall n :: n in names ==> Settled(units, outcomes, b, n)
  }

  lemma AllButTheLast(units: Units, names: seq<string>)
    requires names != [] && Distinct(names) && RequirementsFirst(units, names)
    ensures Distinct(names[..|names| - 1]) && RequirementsFirst(units, names[..|names| - 1])
  {
    var init := names[..|names| - 1];
    assert forall i :: 0 <= i < |init| ==> init[..i] == names[..i];
  }

  lemma {:induction false} StartSettles(units: Units, outcomes: map<string, Outcome>, names: seq<string>)
    requires forall n :: n in names ==> n in units && n in outcomes
    requires Distinct(names) && RequirementsFirst(units, names)
    ensures BoardFits(units, outcomes, names, StartAll(units, outcomes, names, Board(map[], [])))
    decreases |names|
  {
    if names != [] {
      AllButTheLast(units, names);
      StartSettles(units, outcomes, names[..|names| - 1]);
      hide Settled, StartUnit, BoardFits, RequirementsFirst, Distinct;
      BoardGrows(units, outcomes, names, StartAll(units, outcomes, names[..|names| - 1], Board(map[], [])));
    }
  }

  lemma BoardGrows(units: Units, outcomes: map<string, Outcome>, names: seq<string>, before: Board)
    requires names != [] && Distinct(names) && RequirementsFirst(units, names)
    requires forall n :: n in names ==> n in units && n in outcomes
    requires BoardFits(units, outcomes, names[..|names| - 1], before)
    ensures BoardFits(units, outcomes, names, StartUnit(units, outcomes, names[|names| - 1], before))
  {
    hide Settled, RequirementsFirst, Distinct, Blockers;
    var init, last := names[..|names| - 1], names[|names| - 1];
    var b := StartUnit(units, outcomes, last, before);
    assert names == init + [last];
    LastSettles(units, outcomes, names, before);
    forall n | n in init ensures n in b.state && Settled(units, outcomes, b, n) {
      EarlierStaysSettled(units, outcomes, names, before, n);
    }
  }

  lemma LastSettles(units: Units, outcomes: map<string, Outcome>, names: seq<string>, before: Board)
    requires names != [] && Distinct(names) && RequirementsFirst(units, names)
    requires forall n :: n in names ==> n in units && n in outcomes
    requires BoardFits(units, outcomes, names[..|names| - 1], before)
    ensures var last := names[|names| - 1];
            var b := StartUnit(units, outcomes, last, before);
            last in b.state && Settled(units, outcomes, b, last)
  {
    var init, last := names[..|names| - 1], names[|names| - 1];
    var b := StartUnit(units, outcomes, last, before);
    var blockers := Blockers(before, units[last].required);
    BlockersExact(before, units[last].required);
    assert last !in init;
    forall r | Requires(units, last, r) ensures Blocks(b, r) <==> Blocks(before, r) {
      assert r in init;
    }
    if blockers != [] {
      assert blockers[0] in blockers;
      assert blockers[0] in init && Requires(units, last, blockers[0]);
    }
  }

  /** Starting one unit says nothing about the others. */
  lemma StartFrame(units: Units, outcomes: map<string, Outcome>, last: string, before: Board, n: string)
    requires last in units && last in outcomes && n != last
    ensures var b := StartUnit(units, outcomes, last, before);
            && (n in b.state <==> n in before.state) && (n in b.state ==> b.state[n] == before.state[n])
            && (n in b.ran <==> n in before.ran) && (Blocks(b, n) <==> Blocks(before, n))
  {
  }

  lemma SettledFollows(units: Units, outcomes: map<string, Outcome>, before: Board, b: Board, n: string)
    requires n in units && n in outcomes && n in before.state && n in b.state && Settled(units, outcomes, before, n)
    requires b.state[n] == before.state[n] && (n in b.ran <==> n in before.ran)
    requires forall r :: Requires(units, n, r) ==> (Blocks(b, r) <==> Blocks(before, r))
    ensures Settled(units, outcomes, b, n)
  {
    hide Blocks, Requires;
  }

  lemma EarlierStaysSettled(units: Units, outcomes: map<string, Outcome>, names: seq<string>, before: Board, n: string)
    requires names != [] && Distinct(names) && RequirementsFirst(units, names) && n in names[..|names| - 1]
    requires forall n :: n in names ==> n in units && n in outcomes
    requires BoardFits(units, outcomes, names[..|names| - 1], before)
    ensures var b := StartUnit(units, outcomes, names[|names| - 1], before);
            n in b.state && Settled(units, outcomes, b, n)
  {
    hide StartUnit, Settled, Blocks;
    var init, last := names[..|names| - 1], names[|names| - 1];
    var b := StartUnit(units, outcomes, last, before);
    var i :| 0 <= i < |init| && init[i] == n;
    assert names[i] == n;
    StartFrame(units, outcomes, last, before, n);
    forall r | Requires(units, n, r) ensures Blocks(b, r) <==> Blocks(before, r) {
      assert r in names[..i];
      var j :| 0 <= j < i && names[j] == r;
      StartFrame(units, outcomes, last, before, r);
    }
    SettledFollows(units, outcomes, before, b, n);
  }

  // ---- failures propagate ----

  /** Requirements are among the After= dependencies, and no unit depends on itself through them. */
  ghost predicate Sound(units: Units) {
    forall a, b :: Requires(units, a, b) ==> Edge(units, a, b) && !Reaches(units, b, a)
  }

  lemma OrderPutsRequirementsFirst(units: Units, names: seq<string>)
    requires forall n :: n in units ==> n in names
    requires Sound(units)
    ensures RequirementsFirst(units, Order(units, names))
  {
    OrderIsExact(units, names);
    var out := Order(units, names);
    forall i, r | 0 <= i < |out| && Requires(units, out[i], r) ensures r in out[..i] {
      assert Edge(units, out[i], r) && !Reaches(units, r, out[i]);
    }
  }

  function Start(units: Units, outcomes: map<string, Outcome>, names: seq<string>): Board
    requires units.Keys <= outcomes.Keys && forall n :: n in units ==> n in names
  {
    OrderIsExact(units, names);
    StartAll(units, outcomes, Order(units, names), Board(map[], []))
  }

  /** Every unit is settled. */
  ghost predicate AllSettled(units: Units, outcomes: map<string, Outcome>, b: Board) {
    forall n :: n in units ==> n in outcomes && n in b.state && Settled(units, outcomes, b, n)
  }

  lemma {:induction false} NeedingAFailureBlocks(units: Units, outcomes: map<string, Outcome>, b: Board, n: string, f: string, k: nat)
    requires AllSettled(units, outcomes, b) && n in units && f in units && NeedsIn(units, n, f, k)
    requires b.state[f] == Failed
    ensures Blocks(b, n) && (k > 0 ==> b.state[n] == Skipped)
    decreases k
  {
    hide Settled;
    if k > 0 {
      var c :| Requires(units, n, c) && NeedsIn(units, c, f, k - 1);
      NeedingAFailureBlocks(units, outcomes, b, c, f, k - 1);
      BlockedIsSkipped(units, outcomes, b, n, c);
    }
  }

  lemma BlockedIsSkipped(units: Units, outcomes: map<string, Outcome>, b: Board, n: string, r: string)
    requires n in units && n in outcomes && n in b.state && Settled(units, outcomes, b, n)
    requires Requires(units, n, r) && Blocks(b, r)
    ensures b.state[n] == Skipped
  {
  }

  /** A skipped unit always has a failed one below it. */
  lemma {:induction false} SkippedHasAFailure(units: Units, outcomes: map<string, Outcome>, out: seq<string>, b: Board, i: nat)
    requires AllSettled(units, outcomes, b) && RequirementsFirst(units, out) && forall n :: n in out ==> n in units
    requires i < |out| && b.state[out[i]] == Skipped
    ensures exists f, k: nat :: f in units && k > 0 && NeedsIn(units, out[i], f, k) && b.state[f] == Failed
    decreases i
  {
    assert Settled(units, outcomes, b, out[i]);
    var r :| r in units[out[i]].required && Requires(units, out[i], r) && Blocks(b, r);
    assert r in out[..i];
    var j :| 0 <= j < i && out[j] == r;
    if b.state[r] == Skipped {
      SkippedHasAFailure(units, outcomes, out, b, j);
      var f, k: nat :| f in units && k > 0 && NeedsIn(units, out[j], f, k) && b.state[f] == Failed;
      assert NeedsIn(units, out[i], f, k + 1);
    } else {
      assert NeedsIn(units, r, r, 0);
      assert NeedsIn(units, out[i], r, 1);
    }
  }

  /** The unit reaches a failed one through Requires=. */
  ghost predicate ReachesFailure(units: Units, b: Board, n: string) {
    exists f, k: nat :: f in units && k > 0 && NeedsIn(units, n, f, k) && f in b.state && b.state[f] == Failed
  }

  /** A unit is skipped exactly when it reaches a failed one, and then its ExecStart never ran. */
  ghost predicate Propagates(units: Units, b: Board) {
    forall n :: n in units ==>
      n in b.state && (b.state[n] == Skipped <==> ReachesFailure(units, b, n)) && (b.state[n] == Skipped ==> n !in b.ran)
  }

  lemma StartIsSettled(units: Units, outcomes: map<string, Outcome>, names: seq<string>)
    requires units.Keys <= outcomes.Keys && forall n :: n in units ==> n in names
    requires RequirementsFirst(units, Order(units, names))
    ensures AllSettled(units, outcomes, Start(units, outcomes, names))
  {
    hide Order, StartAll, Settled, DependenciesFirst, RequirementsFirst, Distinct;
    OrderIsExact(units, names);
    StartSettles(units, outcomes, Order(units, names));
  }

  lemma FailuresPropagate(units: Units, outcomes: map<string, Outcome>, names: seq<string>)
    requires units.Keys <= outcomes.Keys && forall n :: n in units ==> n in names
    requires RequirementsFirst(units, Order(units, names))
    ensures Propagates(units, Start(units, outcomes, names))
  {
    hide Order, Start, AllSettled, DependenciesFirst, RequirementsFirst, Distinct, ReachesFailure;
    OrderIsExact(units, names);
    StartIsSettled(units, outcomes, names);
    var b := Start(units, outcomes, names);
    forall n | n in units
      ensures n in b.state && (b.state[n] == Skipped <==> ReachesFailure(units, b, n)) && (b.state[n] == Skipped ==> n !in b.ran)
    {
      PropagatesAt(units, outcomes, Order(units, names), b, n);
    }
  }

  lemma PropagatesAt(units: Units, outcomes: map<string, Outcome>, out: seq<string>, b: Board, n: string)
    requires AllSettled(units, outcomes, b) && RequirementsFirst(units, out) && n in units
    requires forall m :: m in out <==> m in units
    ensures n in b.state && (b.state[n] == Skipped <==> ReachesFailure(units, b, n)) && (b.state[n] == Skipped ==> n !in b.ran)
  {
    assert Settled(units, outcomes, b, n);
    if b.state[n] == Skipped {
      SkippedHasAFailure(units, outcomes, out, b, Position(out, n));
    }
    hide RequirementsFirst;
    if ReachesFailure(units, b, n) {
      var f, k: nat :| f in units && k > 0 && NeedsIn(units, n, f, k) && f in b.state && b.state[f] == Failed;
      NeedingAFailureBlocks(units, outcomes, b, n, f, k);
    }
  }

  // ---- and only then ----

  /** Everything is ready but r, whose ExecStart fails. */
  function AllButOne(units: Units, r: string): map<string, Outcome> {
    map n | n in units :: if n == r then StartFails else Ready
  }

  lemma {:induction false} EverythingStarts(units: Units, r: string, names: seq<string>)
    requires r !in names && forall n :: n in names ==> n in units
    ensures var b := StartAll(units, AllButOne(units, r), names, Board(map[], []));
            && (forall n :: n in b.state <==> n in names) && (forall n :: n in names ==> b.state[n] == Started)
    decreases |names|
  {
    if names != [] {
      var init, last := names[..|names| - 1], names[|names| - 1];
      EverythingStarts(units, r, init);
      var before := StartAll(units, AllButOne(units, r), init, Board(map[], []));
      NothingBlocks(before, units[last].required);
      assert names == init + [last];
    }
  }

  lemma {:induction false} NothingBlocks(b: Board, deps: seq<string>)
    requires forall n :: n in b.state ==> b.state[n] == Started
    ensures Blockers(b, deps) == []
  {
    if deps != [] {
      NothingBlocks(b, deps[1..]);
    }
  }

  /** What is started later does not change what a unit came to. */
  lemma {:induction false} LaterStartsKeep(units: Units, outcomes: map<string, Outcome>, names: seq<string>, m: nat, n: string)
    requires (forall n :: n in names ==> n in units && n in outcomes) && Distinct(names)
    requires m <= |names| && n in names[..m]
    ensures forall x :: x in names[..m] ==> x in units && x in outcomes
    ensures var b, c := StartAll(units, outcomes, names[..m], Board(map[], [])), StartAll(units, outcomes, names, Board(map[], []));
            n in b.state ==> n in c.state && c.state[n] == b.state[n]
    decreases |names|
  {
    if m == |names| {
      assert names[..m] == names;
    } else {
      var init, last := names[..|names| - 1], names[|names| - 1];
      assert init[..m] == names[..m];
      LaterStartsKeep(units, outcomes, init, m, n);
      var i :| 0 <= i < m && names[i] == n;
      StartFrame(units, outcomes, last, StartAll(units, outcomes, init, Board(map[], [])), n);
      hide StartUnit;
    }
  }

  lemma FirstFails(units: Units, names: seq<string>)
    requires names != [] && (forall n :: n in names ==> n in units) && Distinct(names)
    ensures var r := names[|names| - 1];
            var b := StartAll(units, AllButOne(units, r), names, Board(map[], []));
            forall n :: n in names ==> n in b.state && b.state[n] == if n == r then Failed else Started
  {
    var init, r := names[..|names| - 1], names[|names| - 1];
    var before := StartAll(units, AllButOne(units, r), init, Board(map[], []));
    EverythingStarts(units, r, init);
    hide StartAll, Distinct;
    NothingBlocks(before, units[r].required);
    assert names == init + [r];
    LastStarts(units, AllButOne(units, r), names);
  }

  lemma LastStarts(units: Units, outcomes: map<string, Outcome>, names: seq<string>)
    requires names != [] && forall n :: n in names ==> n in units && n in outcomes
    ensures StartAll(units, outcomes, names, Board(map[], []))
         == StartUnit(units, outcomes, names[|names| - 1], StartAll(units, outcomes, names[..|names| - 1], Board(map[], [])))
  {
  }

  /** The unit at position p is the one that fails: those before it started, it failed. */
  lemma FirstFailure(units: Units, out: seq<string>, p: nat, n: string)
    requires (forall n :: n in out ==> n in units) && Distinct(out) && p < |out| && n in out[..p + 1]
    ensures var b := StartAll(units, AllButOne(units, out[p]), out, Board(map[], []));
            n in b.state && b.state[n] == if n == out[p] then Failed else Started
  {
    var r := out[p];
    var outcomes := AllButOne(units, r);
    hide StartAll, StartUnit, Blockers, AllButOne;
    FirstFails(units, out[..p + 1]);
    assert out[..p + 1][..p] == out[..p] && out[..p + 1] == out[..p] + [r];
    assert n != r ==> n in out[..p];
    LaterStartsKeep(units, AllButOne(units, r), out, p + 1, n);
  }

  lemma InPrefix(out: seq<string>, r: string, i: nat)
    requires Position(out, r) < i <= |out|
    ensures r in out[..i]
  {
    assert out[..i][Position(out, r)] == r;
  }

  lemma TooEarlyBreaks(units: Units, names: seq<string>, i: nat, r: string)
    requires forall n :: n in units ==> n in names
    requires var out := Order(units, names); i < |out| && Requires(units, out[i], r) && r !in out[..i]
    ensures units.Keys <= AllButOne(units, r).Keys && !Propagates(units, Start(units, AllButOne(units, r), names))
  {
    var out := Order(units, names);
    OrderIsExact(units, names);
    var p := Position(out, r);
    var n := out[i];
    var b := Start(units, AllButOne(units, r), names);
    hide Order, StartAll, DependenciesFirst;
    if p < i {
      InPrefix(out, r, i);
    }
    assert out[..p + 1][i] == n && out[..p + 1][p] == r;
    FirstFailure(units, out, p, n);
    FirstFailure(units, out, p, r);
    assert NeedsIn(units, r, r, 0) && NeedsIn(units, n, r, 1);
    assert ReachesFailure(units, b, n);
  }

  /** What becomes of a unit that is not skipped is what its own commands come to, whatever the order: started when
      they are ready, failed otherwise, its ExecStart run unless what precedes it failed. */
  lemma {:induction false} NotSkippedMeansRun(units: Units, outcomes: map<string, Outcome>, names: seq<string>, n: string)
    requires (forall m :: m in names ==> m in units && m in outcomes) && n in names && Distinct(names)
    ensures var b := StartAll(units, outcomes, names, Board(map[], []));
            && n in b.state
            && (b.state[n] != Skipped ==> (b.state[n] == Started <==> outcomes[n] == Ready) && (n in b.ran <==> outcomes[n] != PreFails))
            && (b.state[n] == Skipped ==> n !in b.ran)
            && forall m :: m in b.ran ==> m in names
    decreases |names|
  {
    var init, last := names[..|names| - 1], names[|names| - 1];
    var before := StartAll(units, outcomes, init, Board(map[], []));
    assert names == init + [last];
    RanAmong(units, outcomes, init);
    if n == last {
      assert n !in init;
    } else {
      NotSkippedMeansRun(units, outcomes, init, n);
    }
    hide Blockers;
  }

  lemma {:induction false} RanAmong(units: Units, outcomes: map<string, Outcome>, names: seq<string>)
    requires forall m :: m in names ==> m in units && m in outcomes
    ensures forall m :: m in StartAll(units, outcomes, names, Board(map[], [])).ran ==> m in names
    decreases |names|
  {
    if names != [] {
      RanAmong(units, outcomes, names[..|names| - 1]);
    }
  }

  /** Failures propagate in one start, if the outcomes cover the units. */
  ghost predicate Good(units: Units, names: seq<string>, outcomes: map<string, Outcome>)
    requires forall n :: n in units ==> n in names
  {
    units.Keys <= outcomes.Keys ==> Propagates(units, Start(units, outcomes, names))
  }

  /** From an empty state, whatever the units' own commands come to, failures propagate through Requires=
      exactly when the order, computed before anything is started, puts every selected requirement before what
      requires it. */
  lemma FailuresPropagateExactly(units: Units, names: seq<string>)
    requires forall n :: n in units ==> n in names
    ensures RequirementsFirst(units, Order(units, names)) <==> forall outcomes :: Good(units, names, outcomes)
  {
    if RequirementsFirst(units, Order(units, names)) {
      forall outcomes ensures Good(units, names, outcomes) {
        if units.Keys <= outcomes.Keys {
          FailuresPropagate(units, outcomes, names);
        }
      }
    } else {
      var i, r :| 0 <= i < |Order(units, names)| && Requires(units, Order(units, names)[i], r) && r !in Order(units, names)[..i];
      TooEarlyBreaks(units, names, i, r);
      assert !Good(units, names, AllButOne(units, r));
    }
  }

  /** It is enough that every requirement is also an After= dependency and none leads back to its dependent. */
  lemma SoundUnitsPropagate(units: Units, names: seq<string>, outcomes: map<string, Outcome>)
    requires (forall n :: n in units ==> n in names) && Sound(units)
    ensures Good(units, names, outcomes)
  {
    OrderPutsRequirementsFirst(units, names);
    FailuresPropagateExactly(units, names);
  }

  // ---- where they do not ----

  function Alone(): Units {
    map["a" := Unit([], ["b"]), "b" := Unit([], [])]
  }

  /** Requires= without After=: in alphabetical order the dependent comes first, and is started although what
      it requires then fails. */
  lemma RequiresAloneDoesNotHold()
    ensures Order(Alone(), ["a", "b"]) == ["a", "b"]
    ensures !Good(Alone(), ["a", "b"], AllButOne(Alone(), "b"))
  {
    var units := Alone();
    var start := Walk({}, {}, []);
    var first := Walk({"a"}, {"a"}, ["a"]);
    assert ["a", "b"][..1] == ["a"] && ["a"][..0] == [];
    assert Visit(units, "a", start) == first;
    assert Visit(units, "b", first.(seen := {})) == Walk({"a", "b"}, {"b"}, ["a", "b"]);
    hide Visit, VisitAll;
    assert VisitRoots(units, [], start) == start;
    assert VisitRoots(units, ["a"], start) == first;
    assert Requires(units, "a", "b");
    TooEarlyBreaks(units, ["a", "b"], 0, "b");
  }

  function Cyclic(): Units {
    map["a" := Unit(["b"], []), "b" := Unit(["a"], ["a"])]
  }

  /** Requires= with After= on a cycle: the walk enters at a, lists b first, and b is started before the a it
      requires. */
  lemma CycleDoesNotHold()
    ensures Order(Cyclic(), ["a", "b"]) == ["b", "a"]
    ensures !Good(Cyclic(), ["a", "b"], AllButOne(Cyclic(), "a"))
  {
    var units := Cyclic();
    var start := Walk({}, {}, []);
    var entered := Walk({}, {"a"}, []);
    var both := Walk({}, {"a", "b"}, []);
    var nobody: set<string> := {};
    assert {"a"} + {"b"} == {"a", "b"} && {"b"} + {"a"} == {"a", "b"};
    assert nobody + {"a"} == {"a"} && nobody + {"b"} == {"b"};
    assert VisitAll(units, ["a"], both) == both;
    assert Visit(units, "b", entered) == Walk({"b"}, {"a", "b"}, ["b"]);
    assert ["b"][1..] == [];
    assert VisitAll(units, ["b"], entered) == Walk({"b"}, {"a", "b"}, ["b"]);
    assert ["b"] + ["a"] == ["b", "a"];
    var first := Walk({"a", "b"}, {"a", "b"}, ["b", "a"]);
    assert Visit(units, "a", start) == first;
    assert Visit(units, "b", first.(seen := {})) == first.(seen := {});
    hide Visit, VisitAll;
    assert ["a", "b"][..1] == ["a"] && ["a"][..0] == [];
    assert VisitRoots(units, [], start) == start;
    assert VisitRoots(units, ["a"], start) == first;
    assert Requires(units, "b", "a");
    TooEarlyBreaks(units, ["a", "b"], 0, "a");
  }

  // ---- the program ----

  class Walker {
    const units: Units
    var done: set<string>
    var seen: set<string>
    var out: seq<string>

    constructor (units: Units)
      ensures this.units == units && View() == Walk({}, {}, [])
    {
      this.units, done, seen, out := units, {}, {}, [];
    }

    function View(): Walk
      reads this
    {
      Walk(done, seen, out)
    }

    method VisitUnit(n: string)
      requires n in units
      modifies this
      ensures View() == Visit(units, n, old(View()))
      decreases |units.Keys - seen|
    {
      if n in done || n in seen {
        return;
      }
      Smaller(units.Keys, seen, n);
      seen := seen + {n};
      ghost var entered := View();
      var deps, i := units[n].after, 0;
      while i < |deps|
        invariant 0 <= i <= |deps| && entered.seen <= seen
        invariant VisitAll(units, deps, entered) == VisitAll(units, deps[i..], View())
      {
        assert deps[i..][1..] == deps[i + 1..];
        NotLarger(units.Keys, entered.seen, seen);
        if deps[i] in units {
          VisitUnit(deps[i]);
        }
        i := i + 1;
      }
      done, out := done + {n}, out + [n];
    }

    /** names is every selected unit, sorted. */
    method OrderUnits(names: seq<string>)
      requires View() == Walk({}, {}, []) && forall n :: n in names <==> n in units
      modifies this
      ensures out == Order(units, names)
    {
      var i := 0;
      while i < |names|
        invariant 0 <= i <= |names|
        invariant VisitRoots(units, names[..i], Walk({}, {}, [])) == View()
      {
        assert names[..i + 1][..i] == names[..i];
        seen := {};
        VisitUnit(names[i]);
        i := i + 1;
      }
      assert names[..i] == names;
    }
  }

  class Supervisor {
    var state: map<string, State>
    ghost var ran: seq<string>

    constructor (saved: map<string, State>)
      ensures state == saved && ran == []
    {
      state, ran := saved, [];
    }

    ghost function View(): Board
      reads this
    {
      Board(state, ran)
    }

    method FindBlockers(deps: seq<string>) returns (blockers: seq<string>)
      ensures blockers == Blockers(View(), deps)
    {
      blockers := [];
      var i := |deps|;
      while i > 0
        invariant 0 <= i <= |deps| && blockers == Blockers(View(), deps[i..])
      {
        i := i - 1;
        assert deps[i..][1..] == deps[i + 1..];
        if deps[i] in state && state[deps[i]] != Started {
          blockers := [deps[i]] + blockers;
        }
      }
    }

    method StartOne(units: Units, outcomes: map<string, Outcome>, n: string)
      requires n in units && n in outcomes
      modifies this
      ensures View() == StartUnit(units, outcomes, n, old(View()))
    {
      var blockers := FindBlockers(units[n].required);
      if |blockers| > 0 {
        state := state[n := Skipped];
        return;
      }
      if outcomes[n] == PreFails {
        state := state[n := Failed];
        return;
      }
      ran := ran + [n];
      if outcomes[n] == StartFails || outcomes[n] == NeverReady {
        state := state[n := Failed];
        return;
      }
      state := state[n := Started];
    }

    /** The exit code is 1 when any unit on record has failed. */
    method CmdStart(units: Units, outcomes: map<string, Outcome>, names: seq<string>) returns (rc: int)
      requires units.Keys <= outcomes.Keys && forall n :: n in names <==> n in units
      modifies this
      ensures forall n :: n in Order(units, names) <==> n in units
      ensures View() == StartAll(units, outcomes, Order(units, names), old(View()))
      ensures rc == if exists n :: n in state && state[n] == Failed then 1 else 0
    {
      OrderIsExact(units, names);
      ghost var begun := View();
      var walker := new Walker(units);
      walker.OrderUnits(names);
      var order, i := walker.out, 0;
      while i < |order|
        invariant 0 <= i <= |order|
        invariant View() == StartAll(units, outcomes, order[..i], begun)
      {
        assert order[..i + 1][..i] == order[..i];
        StartOne(units, outcomes, order[i]);
        i := i + 1;
      }
      assert order[..i] == order;
      rc := if exists n :: n in state && state[n] == Failed then 1 else 0;
    }
  }
}
