/** The party that shares one detached render: who is waiting, and when the render is cancelled. */
module Parties {

  /** The parties map, and for every party so far how many wait on it and how often it was cancelled. */
  datatype Desk<P(==)> = Desk(parties: map<string, P>, waiting: map<P, int>, cancels: map<P, nat>)

  /** join's locked section. A party is made only when the group has none; made stands for the one made. */
  function PartyFor<P>(d: Desk<P>, group: string, made: P): P {
    if group in d.parties then d.parties[group] else made
  }

  function Joined<P>(d: Desk<P>, group: string, made: P): Desk<P>
    requires forall g :: g in d.parties ==> d.parties[g] in d.waiting
  {
    if group in d.parties then
      var p := d.parties[group];
      d.(waiting := d.waiting[p := d.waiting[p] + 1])
    else Desk(d.parties[group := made], d.waiting[made := 1], d.cancels[made := 0])
  }

  /** leave's locked section. */
  function Left<P>(d: Desk<P>, group: string, p: P): Desk<P>
    requires p in d.waiting
  {
    var next := d.(waiting := d.waiting[p := d.waiting[p] - 1]);
    if d.waiting[p] - 1 == 0 && group in d.parties && d.parties[group] == p then next.(parties := next.parties - {group}) else next
  }

  lemma JoinedIs<P>(d: Desk<P>, group: string, p: P, next: Desk<P>)
    requires (forall g :: g in d.parties ==> d.parties[g] in d.waiting) && d.waiting.Keys == d.cancels.Keys
    requires if group in d.parties then p == d.parties[group] else p !in d.waiting
    requires next.parties == d.parties[group := p] && next.waiting.Keys == next.cancels.Keys == d.waiting.Keys + {p}
    requires forall q :: q in d.waiting ==> next.waiting[q] == d.waiting[q] + (if q == p then 1 else 0) && next.cancels[q] == d.cancels[q]
    requires group !in d.parties ==> next.waiting[p] == 1 && next.cancels[p] == 0
    ensures next == Joined(d, group, p)
  {
    assert next.parties == Joined(d, group, p).parties;
    assert next.waiting == Joined(d, group, p).waiting;
    assert next.cancels == Joined(d, group, p).cancels;
  }

  lemma LeftIs<P>(d: Desk<P>, group: string, p: P, next: Desk<P>)
    requires p in d.waiting && next.waiting.Keys == d.waiting.Keys && next.cancels == d.cancels
    requires forall q :: q in d.waiting ==> next.waiting[q] == d.waiting[q] - (if q == p then 1 else 0)
    requires next.parties == if d.waiting[p] == 1 && group in d.parties && d.parties[group] == p then d.parties - {group} else d.parties
    ensures next == Left(d, group, p)
  {
    assert next.waiting == Left(d, group, p).waiting;
  }

  function Cancelled<P>(d: Desk<P>, p: P): Desk<P>
    requires p in d.cancels
  {
    d.(cancels := d.cancels[p := d.cancels[p] + 1])
  }

  // ---- any schedule of callers ----

  /** Leaving is between leave's unlock and its call of cancel. */
  datatype Caller<P> = Waiting(group: string, party: P) | Leaving(party: P, last: bool) | Gone

  datatype Room<P(==)> = Room(desk: Desk<P>, callers: map<nat, Caller<P>>)

  datatype Step<P> = Join(caller: nat, group: string, made: P) | Leave(caller: nat) | Cancel(caller: nat)

  predicate Fresh<P>(r: Room<P>, step: Step<P>) {
    step.Join? ==> step.made !in r.desk.waiting && step.made !in r.desk.cancels
  }

  ghost predicate Known<P(!new)>(r: Room<P>) {
    && (forall g :: g in r.desk.parties ==> r.desk.parties[g] in r.desk.waiting)
    && r.desk.waiting.Keys == r.desk.cancels.Keys
    && (forall c :: c in r.callers && !r.callers[c].Gone? ==> r.callers[c].party in r.desk.waiting)
  }

  /** A step that is not enabled changes nothing; each caller joins once and leaves once. */
  function Next<P(!new)>(r: Room<P>, step: Step<P>): Room<P>
    requires Known(r)
  {
    match step
    case Join(c, group, made) =>
      if c in r.callers then r
      else Room(Joined(r.desk, group, made), r.callers[c := Waiting(group, PartyFor(r.desk, group, made))])
    case Leave(c) =>
      if c in r.callers && r.callers[c].Waiting? then
        var p := r.callers[c].party;
        var after := Left(r.desk, r.callers[c].group, p);
        Room(after, r.callers[c := Leaving(p, after.waiting[p] == 0)])
      else r
    case Cancel(c) =>
      if c in r.callers && r.callers[c].Leaving? then
        var p := r.callers[c].party;
        Room(if r.callers[c].last then Cancelled(r.desk, p) else r.desk, r.callers[c := Gone])
      else r
  }

  /** The callers that joined p and have not left. */
  ghost function Members<P>(callers: map<nat, Caller<P>>, p: P): set<nat> {
    set c | c in callers && callers[c].Waiting? && callers[c].party == p
  }

  /** The callers about to cancel p. */
  ghost function Cancelling<P>(callers: map<nat, Caller<P>>, p: P): set<nat> {
    set c | c in callers && callers[c].Leaving? && callers[c].party == p && callers[c].last
  }

  ghost predicate Current<P>(d: Desk<P>, p: P) {
    exists g :: g in d.parties && d.parties[g] == p
  }

  ghost predicate PartyFits<P>(r: Room<P>, p: P)
    requires p in r.desk.waiting && p in r.desk.cancels
  {
    && r.desk.waiting[p] == |Members(r.callers, p)|
    && (r.desk.waiting[p] > 0 <==> Current(r.desk, p))
    && r.desk.cancels[p] + |Cancelling(r.callers, p)| == (if r.desk.waiting[p] > 0 then 0 else 1)
  }

  ghost predicate Fits<P(!new)>(r: Room<P>) {
    && Known(r) && Apart(r)
    && (forall p :: p in r.desk.waiting ==> PartyFits(r, p))
  }

  /** A party is one group's, and whoever waits on it finds it in the map. */
  ghost predicate Apart<P(!new)>(r: Room<P>) {
    && (forall g, h :: g in r.desk.parties && h in r.desk.parties && r.desk.parties[g] == r.desk.parties[h] ==> g == h)
    && (forall c :: c in r.callers && r.callers[c].Waiting? ==>
          r.callers[c].group in r.desk.parties && r.desk.parties[r.callers[c].group] == r.callers[c].party)
  }

  lemma CallerMoves<P>(callers: map<nat, Caller<P>>, c: nat, was: Caller<P>, now: Caller<P>, p: P)
    requires (c in callers && callers[c] == was) || (c !in callers && was == Gone)
    ensures var moved := callers[c := now];
            && |Members(moved, p)| == |Members(callers, p)| - (if was.Waiting? && was.party == p then 1 else 0)
                                      + (if now.Waiting? && now.party == p then 1 else 0)
            && |Cancelling(moved, p)| == |Cancelling(callers, p)| - (if was.Leaving? && was.party == p && was.last then 1 else 0)
                                      + (if now.Leaving? && now.party == p && now.last then 1 else 0)
  {
    var moved := callers[c := now];
    assert Members(moved, p) - {c} == Members(callers, p) - {c};
    assert Cancelling(moved, p) - {c} == Cancelling(callers, p) - {c};
    Toggled(Members(callers, p), Members(moved, p), c);
    Toggled(Cancelling(callers, p), Cancelling(moved, p), c);
  }

  lemma Toggled(a: set<nat>, b: set<nat>, c: nat)
    requires a - {c} == b - {c}
    ensures |b| == |a| - (if c in a then 1 else 0) + (if c in b then 1 else 0)
  {
    assert |a - {c}| == |a| - (if c in a then 1 else 0);
    assert |b - {c}| == |b| - (if c in b then 1 else 0);
  }

  lemma NobodyThere<P>(r: Room<P>, p: P)
    requires forall c :: c in r.callers && !r.callers[c].Gone? ==> r.callers[c].party != p
    ensures Members(r.callers, p) == {} && Cancelling(r.callers, p) == {}
  {
  }

  lemma JoinFits<P(!new)>(r: Room<P>, c: nat, group: string, made: P)
    requires Fits(r) && c !in r.callers && Fresh(r, Join(c, group, made))
    ensures Fits(Next(r, Join(c, group, made)))
  {
    JoinApart(r, c, group, made);
    hide PartyFits, Apart, Known, Next;
    var next := Next(r, Join(c, group, made));
    forall p | p in next.desk.waiting ensures PartyFits(next, p) {
      JoinedPartyFits(r, c, group, made, p);
    }
  }

  lemma JoinApart<P(!new)>(r: Room<P>, c: nat, group: string, made: P)
    requires Known(r) && Apart(r) && c !in r.callers && Fresh(r, Join(c, group, made))
    ensures Known(Next(r, Join(c, group, made))) && Apart(Next(r, Join(c, group, made)))
  {
  }

  lemma JoinedPartyFits<P(!new)>(r: Room<P>, c: nat, group: string, made: P, p: P)
    requires Fits(r) && c !in r.callers && Fresh(r, Join(c, group, made))
    requires p in Next(r, Join(c, group, made)).desk.waiting
    ensures PartyFits(Next(r, Join(c, group, made)), p)
  {
    hide Members, Cancelling, Current;
    CallerMoves(r.callers, c, Gone, Waiting(group, PartyFor(r.desk, group, made)), p);
    CurrentAfterJoin(r.desk, group, made, p);
    if p in r.desk.waiting {
      assert PartyFits(r, p);
      if group in r.desk.parties {
        InMapIsCurrent(r.desk, group);
      }
    } else {
      NobodyThere(r, p);
      NotYetCurrent(r.desk, p);
    }
  }

  lemma InMapIsCurrent<P>(d: Desk<P>, group: string)
    requires group in d.parties
    ensures Current(d, d.parties[group])
  {
  }

  lemma NotYetCurrent<P>(d: Desk<P>, p: P)
    requires p !in d.waiting && forall g :: g in d.parties ==> d.parties[g] in d.waiting
    ensures !Current(d, p)
  {
  }

  lemma CurrentAfterJoin<P>(d: Desk<P>, group: string, made: P, p: P)
    requires forall g :: g in d.parties ==> d.parties[g] in d.waiting
    ensures Current(Joined(d, group, made), p) <==> Current(d, p) || p == PartyFor(d, group, made)
  {
    var next := Joined(d, group, made);
    assert group in next.parties && next.parties[group] == PartyFor(d, group, made);
    if Current(d, p) {
      var g :| g in d.parties && d.parties[g] == p;
      assert next.parties[g] == p;
    }
  }

  lemma LeaveFits<P(!new)>(r: Room<P>, c: nat)
    requires Fits(r) && c in r.callers && r.callers[c].Waiting?
    ensures Fits(Next(r, Leave(c)))
  {
    var next := Next(r, Leave(c));
    var group, mine := r.callers[c].group, r.callers[c].party;
    forall p | p in next.desk.waiting ensures PartyFits(next, p) {
      assert PartyFits(r, p);
      CallerMoves(r.callers, c, r.callers[c], next.callers[c], p);
      assert Current(next.desk, p) <==> Current(r.desk, p) && !(p == mine && next.desk.waiting[mine] == 0) by {
        if Current(r.desk, p) && !(p == mine && next.desk.waiting[mine] == 0) {
          var g :| g in r.desk.parties && r.desk.parties[g] == p;
          assert g in next.desk.parties && next.desk.parties[g] == p;
        }
      }
      hide Members, Cancelling, Current;
    }
    assert PartyFits(next, mine);
    forall other | other in next.callers && next.callers[other].Waiting?
      ensures next.callers[other].group in next.desk.parties && next.desk.parties[next.callers[other].group] == next.callers[other].party
    {
      if next.callers[other].party == mine {
        assert other in Members(next.callers, mine);
      }
    }
  }

  lemma CancelFits<P(!new)>(r: Room<P>, c: nat)
    requires Fits(r) && c in r.callers && r.callers[c].Leaving?
    ensures Fits(Next(r, Cancel(c)))
  {
    var next := Next(r, Cancel(c));
    forall p | p in next.desk.waiting ensures PartyFits(next, p) {
      assert PartyFits(r, p);
      CallerMoves(r.callers, c, r.callers[c], Gone, p);
      hide Members, Cancelling;
    }
  }

  /** Any schedule of joins and leaves from an empty map, each new party a new one. */
  ghost predicate Reaches<P(!new)>(steps: seq<Step<P>>, r: Room<P>)
    decreases |steps|
  {
    if steps == [] then r == Room(Desk(map[], map[], map[]), map[])
    else
      exists q: Room<P> :: Reaches(steps[..|steps| - 1], q) && Known(q)
                           && Fresh(q, steps[|steps| - 1]) && r == Next(q, steps[|steps| - 1])
  }

  lemma {:induction false} AnyScheduleFits<P(!new)>(steps: seq<Step<P>>, r: Room<P>)
    requires Reaches(steps, r)
    ensures Fits(r)
    decreases |steps|
  {
    hide Next, Fits, Known;
    if steps == [] {
      NobodyFits(r);
    } else {
      var step := steps[|steps| - 1];
      var q: Room<P> :| Reaches(steps[..|steps| - 1], q) && Known(q) && Fresh(q, step) && r == Next(q, step);
      AnyScheduleFits(steps[..|steps| - 1], q);
      StepFits(q, step);
    }
  }

  lemma NobodyFits<P(!new)>(r: Room<P>)
    requires r == Room(Desk(map[], map[], map[]), map[])
    ensures Fits(r)
  {
  }

  lemma StepFits<P(!new)>(r: Room<P>, step: Step<P>)
    requires Fits(r) && Fresh(r, step)
    ensures Fits(Next(r, step))
  {
    hide PartyFits;
    match step
    case Join(c, group, made) => if c !in r.callers { JoinFits(r, c, group, made); }
    case Leave(c) => if c in r.callers && r.callers[c].Waiting? { LeaveFits(r, c); }
    case Cancel(c) => if c in r.callers && r.callers[c].Leaving? { CancelFits(r, c); }
  }

  /** A group has a party in the map exactly when somebody joined it and has not left, and the party's count
      is how many those are. */
  lemma PartyWhileWanted<P(!new)>(steps: seq<Step<P>>, r: Room<P>, group: string)
    requires Reaches(steps, r)
    ensures group in r.desk.parties
       <==> exists c :: c in r.callers && r.callers[c].Waiting? && r.callers[c].group == group
    ensures group in r.desk.parties ==>
              var p := r.desk.parties[group];
              p in r.desk.waiting && r.desk.waiting[p] > 0
              && r.desk.waiting[p] == |set c | c in r.callers && r.callers[c].Waiting? && r.callers[c].group == group|
  {
    AnyScheduleFits(steps, r);
    if group in r.desk.parties {
      var p := r.desk.parties[group];
      assert PartyFits(r, p) && Current(r.desk, p);
      assert Members(r.callers, p) == set c | c in r.callers && r.callers[c].Waiting? && r.callers[c].group == group;
      var c :| c in Members(r.callers, p);
    }
  }

  /** A party is cancelled at most once, and only when nobody waits on it and it has left the map. */
  lemma CancelledOnceAndLast<P(!new)>(steps: seq<Step<P>>, r: Room<P>, p: P)
    requires Reaches(steps, r) && p in r.desk.cancels
    ensures r.desk.cancels[p] <= 1
    ensures r.desk.cancels[p] == 1 ==> r.desk.waiting[p] == 0 && !Current(r.desk, p)
    ensures (forall c :: c in r.callers ==> !r.callers[c].Leaving?) && r.desk.waiting[p] == 0 ==> r.desk.cancels[p] == 1
  {
    AnyScheduleFits(steps, r);
    assert PartyFits(r, p);
    if forall c :: c in r.callers ==> !r.callers[c].Leaving? {
      assert Cancelling(r.callers, p) == {};
    }
  }

  /** Nobody who is still waiting has had the party's context cancelled under them. */
  lemma WaitersAreNotCancelled<P(!new)>(steps: seq<Step<P>>, r: Room<P>, c: nat)
    requires Reaches(steps, r) && c in r.callers && r.callers[c].Waiting?
    ensures r.callers[c].party in r.desk.cancels && r.desk.cancels[r.callers[c].party] == 0
  {
    AnyScheduleFits(steps, r);
    assert PartyFits(r, r.callers[c].party);
    assert c in Members(r.callers, r.callers[c].party);
  }
}
