/** How many callers wait in each group, and why one caller's stay changes none of it. */
module Crowds {
  import opened Parties

  /** What another caller does. One departs only where one is. */
  datatype Visit = Arrives(group: string) | Departs(group: string)

  function Arrived(counts: map<string, int>, group: string): map<string, int> {
    counts[group := (if group in counts then counts[group] else 0) + 1]
  }

  function Departed(counts: map<string, int>, group: string): map<string, int> {
    if group !in counts then counts
    else if counts[group] == 1 then counts - {group}
    else counts[group := counts[group] - 1]
  }

  function Visited(counts: map<string, int>, visits: seq<Visit>): map<string, int>
    decreases |visits|
  {
    if visits == [] then counts
    else
      var before := Visited(counts, visits[..|visits| - 1]);
      match visits[|visits| - 1]
      case Arrives(g) => Arrived(before, g)
      case Departs(g) => Departed(before, g)
  }

  lemma NoVisits(counts: map<string, int>)
    ensures Visited(counts, []) == counts
  {
  }

  ghost predicate Positive(counts: map<string, int>) {
    forall g :: g in counts ==> counts[g] > 0
  }

  lemma {:induction false} VisitedPositive(counts: map<string, int>, visits: seq<Visit>)
    requires Positive(counts)
    ensures Positive(Visited(counts, visits))
    decreases |visits|
  {
    if visits != [] {
      VisitedPositive(counts, visits[..|visits| - 1]);
    }
  }

  /** A caller of one group does not get in another visit's way. */
  lemma ArrivesBeside(counts: map<string, int>, mine: string, g: string)
    ensures Arrived(Arrived(counts, mine), g) == Arrived(Arrived(counts, g), mine)
  {
    if g == mine {
    } else {
      assert Arrived(Arrived(counts, mine), g) == Arrived(Arrived(counts, g), mine);
    }
  }

  lemma DepartsBeside(counts: map<string, int>, mine: string, g: string)
    requires Positive(counts)
    ensures g in counts <==> g in Arrived(counts, mine) && (g != mine || Arrived(counts, mine)[g] > 1)
    ensures g in counts ==> Departed(Arrived(counts, mine), g) == Arrived(Departed(counts, g), mine)
    ensures g !in counts ==> Departed(counts, g) == counts
  {
    if g in counts {
      assert Departed(Arrived(counts, mine), g) == Arrived(Departed(counts, g), mine);
    }
  }

  lemma BackAgain(counts: map<string, int>, mine: string)
    requires Positive(counts)
    ensures Departed(Arrived(counts, mine), mine) == counts
  {
    assert Departed(Arrived(counts, mine), mine) == counts;
  }

  // ---- the desk at rest ----

  predicate InUse<P>(d: Desk<P>, p: P) {
    exists g :: g in d.parties && d.parties[g] == p
  }

  /** Each group's party is its own, has somebody waiting and was never cancelled. */
  ghost predicate Standing<P>(d: Desk<P>) {
    && d.waiting.Keys == d.cancels.Keys
    && (forall g :: g in d.parties ==> d.parties[g] in d.waiting && d.waiting[d.parties[g]] > 0 && d.cancels[d.parties[g]] == 0)
    && (forall g, h :: g in d.parties && h in d.parties && d.parties[g] == d.parties[h] ==> g == h)
  }

  /** Every other party made so far is empty and was cancelled once. */
  ghost predicate Discarded<P>(d: Desk<P>)
    requires Standing(d)
  {
    forall p :: p in d.waiting ==> InUse(d, p) || (d.waiting[p] == 0 && d.cancels[p] == 1)
  }

  ghost predicate Orderly<P>(d: Desk<P>) {
    Standing(d) && Discarded(d)
  }

  ghost function Waiters<P>(d: Desk<P>): (counts: map<string, int>)
    requires Standing(d)
    ensures Positive(counts)
  {
    map g | g in d.parties :: d.waiting[d.parties[g]]
  }

  lemma JoinedStands<P>(d: Desk<P>, group: string, p: P)
    requires Standing(d) && if group in d.parties then p == d.parties[group] else p !in d.waiting
    ensures Standing(Joined(d, group, p)) && Waiters(Joined(d, group, p)) == Arrived(Waiters(d), group)
  {
    var next := Joined(d, group, p);
    if group in d.parties {
      assert Standing(next);
    } else {
      assert Standing(next);
    }
    assert Waiters(next) == Arrived(Waiters(d), group);
  }

  lemma JoinedOrderly<P>(d: Desk<P>, group: string, p: P)
    requires Orderly(d) && if group in d.parties then p == d.parties[group] else p !in d.waiting
    ensures var next := Joined(d, group, p);
            Orderly(next) && Waiters(next) == Arrived(Waiters(d), group)
  {
    JoinedStands(d, group, p);
    hide Standing, Waiters, Arrived;
    var next := Joined(d, group, p);
    forall q | q in next.waiting ensures InUse(next, q) || (next.waiting[q] == 0 && next.cancels[q] == 1) {
      if q == p {
        assert next.parties[group] == p;
      } else if InUse(d, q) {
        var g :| g in d.parties && d.parties[g] == q;
        assert next.parties[g] == q;
      }
    }
  }

  /** The whole of leaving, the cancel of a party it empties with it. */
  function Gone<P>(d: Desk<P>, group: string): Desk<P>
    requires group in d.parties && d.parties[group] in d.waiting && d.parties[group] in d.cancels
  {
    var p := d.parties[group];
    var after := Left(d, group, p);
    if d.waiting[p] == 1 then Cancelled(after, p) else after
  }

  lemma GoneStands<P>(d: Desk<P>, group: string)
    requires Standing(d) && group in d.parties
    ensures Standing(Gone(d, group))
  {
    var next := Gone(d, group);
    if d.waiting[d.parties[group]] == 1 {
      assert next.parties == d.parties - {group};
      assert Standing(next);
    } else {
      assert Standing(next);
    }
  }

  lemma GoneWaiters<P>(d: Desk<P>, group: string)
    requires Standing(d) && group in d.parties && Standing(Gone(d, group))
    ensures Waiters(Gone(d, group)) == Departed(Waiters(d), group)
  {
    var before, after := Waiters(d), Waiters(Gone(d, group));
    forall g | g in before && g != group ensures g in after && after[g] == before[g] {
      assert d.parties[g] != d.parties[group];
    }
    hide Waiters, Standing;
    assert after == Departed(before, group);
  }

  lemma GoneOrderly<P>(d: Desk<P>, group: string)
    requires Orderly(d) && group in d.parties
    ensures Orderly(Gone(d, group)) && Waiters(Gone(d, group)) == Departed(Waiters(d), group)
  {
    GoneStands(d, group);
    GoneWaiters(d, group);
    assert d.parties[group] in d.waiting && d.parties[group] in d.cancels && d.cancels[d.parties[group]] == 0;
    hide Standing, Waiters, Departed;
    var p, next := d.parties[group], Gone(d, group);
    forall q | q in next.waiting ensures InUse(next, q) || (next.waiting[q] == 0 && next.cancels[q] == 1) {
      if q != p && InUse(d, q) {
        var g :| g in d.parties && d.parties[g] == q;
        assert next.parties[g] == q;
      } else if q == p && d.waiting[p] != 1 {
        assert next.parties[group] == p;
      }
    }
  }
}
