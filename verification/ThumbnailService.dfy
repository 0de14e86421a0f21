/** The thumbnail handler as it runs: a cache read, a shared flight, a render. Whatever every other actor does
    in between is a parameter. */
module ThumbnailService {
  import opened Common
  import opened ThumbnailKeys
  import opened CacheProtocol
  import opened Crowds
  import Parties

  /** Nobody else advances render r. */
  predicate Elsewhere(steps: seq<Step>, r: nat) {
    forall i :: 0 <= i < |steps| ==>
      !(steps[i].Store? && steps[i].r == r) && !(steps[i].Record? && steps[i].r == r) && !(steps[i].Fail? && steps[i].r == r)
  }

  lemma NextKeeps(es: set<Entry>, s: World, step: Step)
    requires Universe(es) && WellKeyed(es, s)
    ensures WellKeyed(es, Next(es, s, step))
  {
    hide WellFormed, Bijective, RenderStep, ReadStep, WorkStep, WellKeyed;
    if step.Start? || step.Store? || step.Record? || step.Fail? {
      RenderKeeps(es, s, step);
    } else if step.Lookup? || step.Fetch? || step.Share? {
      ReadKeeps(es, s, step);
    } else {
      WorkKeeps(es, s, step);
    }
  }

  lemma {:induction false} OthersKeep(es: set<Entry>, s: World, steps: seq<Step>, r: nat)
    requires Universe(es) && WellKeyed(es, s)
    ensures WellKeyed(es, RunFrom(es, s, steps))
    ensures |s.renders| <= |RunFrom(es, s, steps).renders|
    ensures r < |s.renders| && Elsewhere(steps, r) ==> RunFrom(es, s, steps).renders[r] == s.renders[r]
    decreases |steps|
  {
    if steps != [] {
      OthersKeep(es, s, steps[..|steps| - 1], r);
      var before := RunFrom(es, s, steps[..|steps| - 1]);
      NextKeeps(es, before, steps[|steps| - 1]);
      LeavesRender(es, before, steps[|steps| - 1], r);
      hide Next, WellKeyed, Universe;
    }
  }

  lemma LeavesRender(es: set<Entry>, s: World, step: Step, r: nat)
    requires forall e :: e in es ==> WellFormed(e)
    ensures |s.renders| <= |Next(es, s, step).renders|
    ensures r < |s.renders| && Elsewhere([step], r) ==> Next(es, s, step).renders[r] == s.renders[r]
  {
    hide ObjectKey, RowKeyOf, WellFormed;
    assert [step][0] == step;
  }

  lemma LiveRowNames(es: set<Entry>, s: World, e: Entry)
    requires Universe(es) && WellKeyed(es, s) && e in es && RowKeyOf(e) in s.rows
    ensures s.rows[RowKeyOf(e)].objectKey == ObjectKey(e)
  {
    RowOfEntry(es, s, RowKeyOf(e), e);
  }

  lemma ObjectIsRendered(es: set<Entry>, s: World, e: Entry)
    requires Universe(es) && WellKeyed(es, s) && e in es && ObjectKey(e) in s.bucket
    ensures s.bucket[ObjectKey(e)] < |s.renders| && s.renders[s.bucket[ObjectKey(e)]].bytes.Some?
    ensures Produced(s.renders, Answer(e, s.renders[s.bucket[ObjectKey(e)]].bytes.value))
  {
    var r := s.bucket[ObjectKey(e)];
    assert StoredBy(s, ObjectKey(e), r);
    KeysAgree(es, e, s.renders[r].entry);
    ProducedHere(s.renders, r, Answer(e, s.renders[r].bytes.value));
  }

  /** What fails under a cache read. */
  datatype Trouble = NoTrouble | TableDown | BucketDown

  predicate LiveRow(s: World, e: Entry)
    requires WellFormed(e)
  {
    RowKeyOf(e) in s.rows && !s.rows[RowKeyOf(e)].withdrawn
  }

  predicate Hit(es: set<Entry>, s: World, e: Entry, trouble: Trouble, meanwhile: seq<Step>)
    requires (forall e :: e in es ==> WellFormed(e)) && e in es
  {
    trouble == NoTrouble && LiveRow(s, e) && ObjectKey(e) in RunFrom(es, s, meanwhile).bucket
  }

  predicate ReadFails(s: World, e: Entry, trouble: Trouble)
    requires WellFormed(e)
  {
    trouble == TableDown || (trouble == BucketDown && LiveRow(s, e))
  }

  /** The bucket is only asked once a live row was found. */
  function AfterRead(es: set<Entry>, s: World, e: Entry, trouble: Trouble, meanwhile: seq<Step>): World
    requires (forall e :: e in es ==> WellFormed(e)) && e in es
  {
    if trouble == TableDown || !LiveRow(s, e) then s else RunFrom(es, s, meanwhile)
  }

  /** Whose flight the group runs for this caller: its own, or one already under way, which ends in an error or
      in the answer of that index. */
  datatype Lead = Leads | Follows(result: Option<nat>)

  /** How a render goes: what the renderer produced, and whether the bucket and the table took it. */
  datatype Outcome = Outcome(image: Option<Bytes>, putFails: bool, upsertFails: bool)

  /** The flight a caller follows ended with an answer of its own key. */
  predicate Shared(s: World, e: Entry, result: Option<nat>) {
    result.Some? && result.value < |s.answers| && ObjectKey(s.answers[result.value].entry) == ObjectKey(e)
  }

  /** An image comes of the wait. */
  predicate Comes(es: set<Entry>, s: World, e: Entry, lead: Lead, outcome: Outcome, trouble: Trouble, again: seq<Step>)
    requires (forall e :: e in es ==> WellFormed(e)) && e in es
  {
    match lead
    case Leads => Hit(es, s, e, trouble, again) || (!ReadFails(s, e, trouble) && Publishes(outcome))
    case Follows(result) => Shared(s, e, result)
  }

  predicate Publishes(outcome: Outcome) {
    outcome.image.Some? && outcome.image.value != [] && !outcome.putFails && !outcome.upsertFails
  }

  class RenderParty {
    var waiting: int
    var cancels: nat

    constructor ()
      ensures waiting == 0 && cancels == 0
    {
      waiting, cancels := 0, 0;
    }
  }

  class Thumbnail {
    const es: set<Entry>
    var parties: map<string, RenderParty>
    var world: World
    ghost var made: set<RenderParty>

    ghost function View(): Parties.Desk<RenderParty>
      reads this`parties, this`made, made
    {
      Parties.Desk(parties, map p | p in made :: p.waiting, map p | p in made :: p.cancels)
    }

    ghost predicate Valid()
      reads this
    {
      Universe(es) && WellKeyed(es, world) && forall g :: g in parties ==> parties[g] in made
    }

    constructor (es: set<Entry>)
      requires Universe(es)
      ensures Valid() && this.es == es && View() == Parties.Desk(map[], map[], map[]) && world == NOTHING
    {
      this.es, parties, world, made := es, map[], NOTHING, {};
    }

    // ---- the party ----

    method Join(group: string) returns (party: RenderParty)
      requires Valid()
      modifies this`parties, this`made, made
      ensures Valid() && made == old(made) + {party}
      ensures if group in old(parties) then party == old(parties)[group] else fresh(party)
      ensures party == Parties.PartyFor(old(View()), group, party)
      ensures View() == Parties.Joined(old(View()), group, party)
      ensures parties == old(parties)[group := party] && (fresh(party) ==> party.waiting == 1 && party.cancels == 0)
      ensures forall p :: p in old(made) ==> p.waiting == old(p.waiting) + (if p == party then 1 else 0) && p.cancels == old(p.cancels)
    {
      hide Universe, WellKeyed;
      if group in parties {
        party := parties[group];
        party.waiting := party.waiting + 1;
      } else {
        party := new RenderParty();
        parties, made := parties[group := party], made + {party};
        party.waiting := party.waiting + 1;
      }
      Parties.JoinedIs(old(View()), group, party, View());
    }

    /** The function join returns, up to its unlock. */
    method Leave(group: string, party: RenderParty) returns (last: bool)
      requires Valid() && party in made
      modifies this`parties, party
      ensures Valid() && made == old(made) && last == (party.waiting == 0)
      ensures View() == Parties.Left(old(View()), group, party)
      ensures parties == if last && group in old(parties) && old(parties)[group] == party then old(parties) - {group} else old(parties)
      ensures party.waiting == old(party.waiting) - 1 && party.cancels == old(party.cancels)
    {
      hide Universe, WellKeyed;
      party.waiting := party.waiting - 1;
      last := party.waiting == 0;
      if last && group in parties && parties[group] == party {
        parties := parties - {group};
      }
      Parties.LeftIs(old(View()), group, party, View());
    }

    method Cancel(party: RenderParty)
      requires Valid() && party in made
      modifies party
      ensures Valid() && View() == Parties.Cancelled(old(View()), party)
      ensures party.cancels == old(party.cancels) + 1 && party.waiting == old(party.waiting)
    {
      party.cancels := party.cancels + 1;
    }

    // ---- the cache ----

    method Meanwhile(steps: seq<Step>)
      requires Valid()
      modifies this`world
      ensures Valid() && world == RunFrom(es, old(world), steps)
    {
      OthersKeep(es, world, steps, 0);
      hide RunFrom, WellKeyed, Universe;
      world := RunFrom(es, world, steps);
    }

    /** The row first, and only then the bucket; a row without its object is a miss, and a table or a bucket
        that does not answer is an error. */
    method FromCache(e: Entry, trouble: Trouble, meanwhile: seq<Step>) returns (image: Option<Bytes>, failed: bool)
      requires Valid() && e in es
      modifies this`world
      ensures Valid() && world == AfterRead(es, old(world), e, trouble, meanwhile)
      ensures image.Some? <==> Hit(es, old(world), e, trouble, meanwhile)
      ensures failed <==> ReadFails(old(world), e, trouble)
      ensures image.Some? ==> Produced(world.renders, Answer(e, image.value))
    {
      hide ObjectKey, RowKeyOf, WellKeyed, RunFrom, Produced, WellFormed;
      if trouble == TableDown {
        return None, true;
      }
      var rk := RowKeyOf(e);
      if rk !in world.rows || world.rows[rk].withdrawn {
        return None, false;
      }
      LiveRowNames(es, world, e);
      var objectKey := world.rows[rk].objectKey;
      Meanwhile(meanwhile);
      if trouble == BucketDown {
        return None, true;
      }
      if objectKey !in world.bucket {
        return None, false;
      }
      ObjectIsRendered(es, world, e);
      return world.renders[world.bucket[objectKey]].bytes, false;
    }

    method Advance(step: Step)
      requires Valid()
      modifies this`world
      ensures Valid() && world == Next(es, old(world), step)
    {
      NextKeeps(es, world, step);
      hide Next, WellKeyed, Universe;
      world := Next(es, world, step);
    }

    /** Object first, row second. A failure in between leaves the object to the sweep. */
    method Render(e: Entry, outcome: Outcome, during: seq<Step>, gap: seq<Step>) returns (image: Option<Bytes>)
      requires Valid() && e in es
      requires Elsewhere(during, |world.renders|) && Elsewhere(gap, |world.renders|)
      modifies this`world
      ensures Valid()
      ensures image.Some? <==> Publishes(outcome)
      ensures image.Some? ==> image == outcome.image && Produced(world.renders, Answer(e, image.value))
      ensures image.Some? ==> RowKeyOf(e) in world.rows && !world.rows[RowKeyOf(e)].withdrawn
                              && world.rows[RowKeyOf(e)].objectKey == ObjectKey(e)
      ensures image.None? ==> |world.renders| > |old(world).renders| && world.renders[|old(world).renders|].stage == Failed
    {
      hide WellKeyed, ObjectKey, RowKeyOf, RunFrom, Produced, WellFormed, Elsewhere;
      var r := |world.renders|;
      Start(e);
      OthersKeep(es, world, during, r);
      Meanwhile(during);
      assert world.renders[r] == CacheProtocol.Render(e, None, Rendering);
      if outcome.image.None? || outcome.image.value == [] || outcome.putFails {
        FailRender(r);
        return None;
      }
      StoreRender(r, outcome.image.value);
      OthersKeep(es, world, gap, r);
      Meanwhile(gap);
      assert world.renders[r] == CacheProtocol.Render(e, outcome.image, Stored);
      if outcome.upsertFails {
        FailRender(r);
        return None;
      }
      RecordRender(r);
      ProducedHere(world.renders, r, Answer(e, outcome.image.value));
      return outcome.image;
    }

    method Start(e: Entry)
      requires Valid() && e in es
      modifies this`world
      ensures Valid() && world.renders == old(world).renders + [CacheProtocol.Render(e, None, Rendering)]
    {
      Advance(CacheProtocol.Start(e));
    }

    method FailRender(r: nat)
      requires Valid() && r < |world.renders| && world.renders[r].stage != Recorded
      modifies this`world
      ensures Valid() && world.renders == old(world).renders[r := old(world).renders[r].(stage := Failed)]
    {
      Advance(Fail(r));
    }

    method StoreRender(r: nat, bytes: Bytes)
      requires Valid() && r < |world.renders| && world.renders[r].stage == Rendering && bytes != []
      modifies this`world
      ensures Valid() && world.bucket == old(world).bucket[ObjectKey(old(world).renders[r].entry) := r]
      ensures world.renders == old(world).renders[r := CacheProtocol.Render(old(world).renders[r].entry, Some(bytes), Stored)]
    {
      hide ObjectKey;
      Advance(Store(r, bytes));
    }

    method RecordRender(r: nat)
      requires Valid() && r < |world.renders| && world.renders[r].stage == Stored && world.renders[r].bytes.Some?
      requires world.renders[r].entry in es
      modifies this`world
      ensures Valid() && world.renders == old(world).renders[r := old(world).renders[r].(stage := Recorded)]
      ensures var e := old(world).renders[r].entry;
              RowKeyOf(e) in world.rows && !world.rows[RowKeyOf(e)].withdrawn && world.rows[RowKeyOf(e)].objectKey == ObjectKey(e)
    {
      RecordShape(es, world, r);
      hide ObjectKey, RowKeyOf, RenderStep;
      Advance(Record(r));
    }

    /** What the flight runs: the cache again, for a caller that queued behind an earlier flight, then a render. */
    method Flight(e: Entry, outcome: Outcome, trouble: Trouble, again: seq<Step>, schedule: nat -> (seq<Step>, seq<Step>))
      returns (image: Option<Bytes>)
      requires Valid() && e in es
      requires forall r :: Elsewhere(schedule(r).0, r) && Elsewhere(schedule(r).1, r)
      modifies this`world
      ensures Valid()
      ensures image.Some? ==> Produced(world.renders, Answer(e, image.value))
      ensures image.Some? <==> Hit(es, old(world), e, trouble, again) || (!ReadFails(old(world), e, trouble) && Publishes(outcome))
    {
      hide WellKeyed, ObjectKey, RowKeyOf, RunFrom, Produced, Elsewhere, WellFormed, Hit, ReadFails, AfterRead, Publishes;
      var failed;
      image, failed := FromCache(e, trouble, again);
      if image.None? && !failed {
        var r := |world.renders|;
        image := Render(e, outcome, schedule(r).0, schedule(r).1);
      }
    }

    /** The result of a flight somebody else runs. */
    method Follow(e: Entry, result: Option<nat>) returns (image: Option<Bytes>)
      requires Valid() && e in es
      modifies this`world
      ensures Valid()
      ensures image.Some? <==> Shared(old(world), e, result)
      ensures image.Some? ==> image.value == old(world).answers[result.value].bytes && Produced(world.renders, Answer(e, image.value))
    {
      hide ObjectKey, RowKeyOf, WellFormed, Produced;
      if result.None? || result.value >= |world.answers| || ObjectKey(world.answers[result.value].entry) != ObjectKey(e) {
        return None;
      }
      image := Some(world.answers[result.value].bytes);
      Advance(Share(result.value, e));
      assert world.answers[|world.answers| - 1] == Answer(e, image.value);
    }

    /** The wait for the group's result. */
    method Await(e: Entry, lead: Lead, outcome: Outcome, trouble: Trouble, queued: seq<Step>, again: seq<Step>,
                 schedule: nat -> (seq<Step>, seq<Step>)) returns (image: Option<Bytes>)
      requires Valid() && e in es
      requires forall r :: Elsewhere(schedule(r).0, r) && Elsewhere(schedule(r).1, r)
      modifies this`world
      ensures Valid()
      ensures image.Some? <==> Comes(es, RunFrom(es, old(world), queued), e, lead, outcome, trouble, again)
      ensures image.Some? ==> Produced(world.renders, Answer(e, image.value))
    {
      hide WellKeyed, ObjectKey, RowKeyOf, RunFrom, Produced, Universe, Elsewhere, Next, View, LiveRow, Publishes, Hit, ReadFails, Shared;
      Meanwhile(queued);
      if lead == Leads {
        image := Flight(e, outcome, trouble, again, schedule);
      } else {
        image := Follow(e, lead.result);
      }
    }

    // ---- callers coming and going ----

    ghost predicate Attended()
      reads this`parties, this`made, made
    {
      Orderly(View())
    }

    ghost function Counts(): (counts: map<string, int>)
      requires Attended()
      reads this`parties, this`made, made
      ensures Positive(counts) && counts.Keys == parties.Keys
      ensures forall g :: g in parties ==> parties[g] in made && counts[g] == parties[g].waiting && parties[g].cancels == 0
    {
      Waiters(View())
    }

    method Arrive(group: string) returns (party: RenderParty)
      requires Valid() && Attended()
      modifies this`parties, this`made, made
      ensures Valid() && Attended() && made == old(made) + {party}
      ensures Counts() == Arrived(old(Counts()), group)
      ensures parties == old(parties)[group := party] && (group in old(parties) ==> party == old(parties)[group])
      ensures group !in old(parties) ==> fresh(party) && party.waiting == 1
      ensures forall p :: p in old(made) ==> p.waiting == old(p.waiting) + (if p == party then 1 else 0) && p.cancels == old(p.cancels)
    {
      ghost var was := View();
      assert forall p :: p in was.waiting <==> p in made;
      hide View, Universe, WellKeyed, Orderly, Waiters, Parties.Joined, Arrived;
      party := Join(group);
      JoinedOrderly(was, group, party);
    }

    /** The whole function join returns. */
    method Depart(group: string, party: RenderParty)
      requires Valid() && Attended() && group in parties && parties[group] == party && party in made
      modifies this`parties, party
      ensures Valid() && Attended() && made == old(made)
      ensures Counts() == Departed(old(Counts()), group)
      ensures parties == if old(party.waiting) == 1 then old(parties) - {group} else old(parties)
      ensures party.waiting == old(party.waiting) - 1 && party.cancels == (if old(party.waiting) == 1 then 1 else 0)
    {
      ghost var was := View();
      assert party.cancels == 0 && party in was.waiting && was.waiting[party] == party.waiting && party in was.cancels;
      assert was.parties == parties;
      hide View, Universe, WellKeyed, Orderly, Waiters, Parties.Left, Parties.Cancelled, Departed;
      GoneOrderly(was, group);
      var last := Leave(group, party);
      if last {
        Cancel(party);
      }
    }

    /** One visit beside a caller waiting in its own group; counts is everybody else's. */
    method Visit(visit: Visit, mine: string, ghost counts: map<string, int>)
      requires Valid() && Attended() && mine in parties && Positive(counts) && Counts() == Arrived(counts, mine)
      modifies this`parties, this`made, made
      ensures Valid() && Attended() && old(made) <= made
      ensures mine in parties && parties[mine] == old(parties)[mine]
      ensures Counts() == Arrived(if visit.Arrives? then Arrived(counts, visit.group) else Departed(counts, visit.group), mine)
      ensures forall p :: p in made && p !in old(made) ==> fresh(p)
    {
      ArrivesBeside(counts, mine, visit.group);
      DepartsBeside(counts, mine, visit.group);
      hide View, Universe, WellKeyed, Arrived, Departed;
      match visit {
        case Arrives(g) =>
          var party := Arrive(g);
        case Departs(g) =>
          if g in parties && (g != mine || parties[g].waiting > 1) {
            Depart(g, parties[g]);
          } else {
            assert g !in counts;
          }
      }
    }

    /** What other callers do meanwhile. */
    method Crowd(visits: seq<Visit>, mine: string, ghost counts: map<string, int>)
      requires Valid() && Attended() && mine in parties && Positive(counts) && Counts() == Arrived(counts, mine)
      modifies this`parties, this`made, made
      ensures Valid() && Attended() && old(made) <= made
      ensures mine in parties && parties[mine] == old(parties)[mine]
      ensures Counts() == Arrived(Visited(counts, visits), mine)
      ensures forall p :: p in made && p !in old(made) ==> fresh(p)
    {
      hide View, Universe, WellKeyed, Valid, Attended, Counts, Arrived, Departed, Positive;
      ghost var party := parties[mine];
      var i := 0;
      while i < |visits|
        invariant 0 <= i <= |visits| && Valid() && Attended() && old(made) <= made
        invariant mine in parties && parties[mine] == party
        invariant forall p :: p in made && p !in old(made) ==> fresh(p)
        invariant Counts() == Arrived(Visited(counts, visits[..i]), mine)
      {
        VisitedPositive(counts, visits[..i]);
        assert visits[..i + 1][..i] == visits[..i];
        Visit(visits[i], mine, Visited(counts, visits[..i]));
        i := i + 1;
      }
      assert visits[..i] == visits;
    }

    /** Joining, and what others do until it leaves. */
    method Enter(group: string, visits: seq<Visit>) returns (party: RenderParty)
      requires Valid() && Attended()
      modifies this`parties, this`made, made
      ensures Valid() && Attended() && old(made) <= made
      ensures group in parties && parties[group] == party && party in made
      ensures Counts() == Arrived(Visited(old(Counts()), visits), group)
      ensures if group in old(parties) then party == old(parties)[group] else fresh(party)
      ensures visits == [] ==>
                && made == old(made) + {party} && parties == old(parties)[group := party]
                && (group !in old(parties) ==> party.waiting == 1)
                && forall p :: p in old(made) ==> p.waiting == old(p.waiting) + (if p == party then 1 else 0) && p.cancels == old(p.cancels)
    {
      ghost var counts := Counts();
      hide Counts, View, Universe, WellKeyed, Valid, Attended, Arrived, Departed, Visited, Positive;
      NoVisits(counts);
      party := Arrive(group);
      if visits == [] {
        return;
      }
      Crowd(visits, group, counts);
    }

    /** A caller the cache could not answer: it joins, waits, takes what comes unless its client has left, and
        leaves. */
    method Stay(e: Entry, gone: bool, lead: Lead, outcome: Outcome, trouble: Trouble, queued: seq<Step>, again: seq<Step>,
                schedule: nat -> (seq<Step>, seq<Step>), visits: seq<Visit>) returns (image: Option<Bytes>)
      requires Valid() && Attended() && e in es
      requires forall r :: Elsewhere(schedule(r).0, r) && Elsewhere(schedule(r).1, r)
      modifies this, made
      ensures Valid() && Attended() && old(made) <= made
      ensures image.Some? <==> !gone && Comes(es, RunFrom(es, old(world), queued), e, lead, outcome, trouble, again)
      ensures image.Some? ==> Produced(world.renders, Answer(e, image.value))
      ensures Counts() == Visited(old(Counts()), visits)
      ensures visits == [] ==>
                && parties == old(parties)
                && (forall p :: p in old(made) ==> p.waiting == old(p.waiting) && p.cancels == old(p.cancels))
                && (forall p :: p in made && p !in old(made) ==> p.waiting == 0 && p.cancels == 1)
    {
      hide WellKeyed, ObjectKey, RowKeyOf, RunFrom, Produced, Universe, Elsewhere, View, Publishes, Comes, Counts, Arrived, Departed,
           Visited, Attended;
      var group := ObjectKey(e);
      ghost var counts := Counts();
      var party := Enter(group, visits);
      image := Await(e, lead, outcome, trouble, queued, again, schedule);
      if gone {
        image := None;
      }
      VisitedPositive(counts, visits);
      BackAgain(Visited(counts, visits), group);
      Depart(group, party);
      assert group !in old(parties) ==> old(parties)[group := party] - {group} == old(parties);
      assert visits == [] && group in old(parties) ==> old(parties)[group := party] == old(parties);
    }

    /** One caller's request, running the flight itself or following another's, while other callers come and go.
        gone is its own client having left, which never reaches the render; schedule is what others do while
        render r renders and before it is recorded. */
    method Load(e: Entry, gone: bool, lead: Lead, outcome: Outcome, first: Trouble, second: Trouble,
                before: seq<Step>, queued: seq<Step>, again: seq<Step>,
                schedule: nat -> (seq<Step>, seq<Step>), visits: seq<Visit>) returns (image: Option<Bytes>)
      requires Valid() && Attended() && e in es
      requires forall r :: Elsewhere(schedule(r).0, r) && Elsewhere(schedule(r).1, r)
      modifies this, made
      ensures Valid() && Attended() && old(made) <= made
      ensures var joins := !Hit(es, old(world), e, first, before) && !ReadFails(old(world), e, first);
              var later := RunFrom(es, AfterRead(es, old(world), e, first, before), queued);
              && (image.Some? <==> Hit(es, old(world), e, first, before) || (joins && !gone && Comes(es, later, e, lead, outcome, second, again)))
              && Counts() == (if joins then Visited(old(Counts()), visits) else old(Counts()))
      ensures image.Some? ==> Produced(world.renders, Answer(e, image.value))
      ensures visits == [] ==>
                && parties == old(parties)
                && (forall p :: p in old(made) ==> p.waiting == old(p.waiting) && p.cancels == old(p.cancels))
                && (forall p :: p in made && p !in old(made) ==> p.waiting == 0 && p.cancels == 1)
    {
      hide WellKeyed, ObjectKey, RowKeyOf, RunFrom, Produced, Elsewhere, Next, View, LiveRow, Publishes,
           Hit, ReadFails, AfterRead, Comes, Counts, Arrived, Departed, Visited, Attended, Positive;
      var failed;
      image, failed := FromCache(e, first, before);
      if image.Some? || failed {
        return;
      }
      image := Stay(e, gone, lead, outcome, second, queued, again, schedule, visits);
    }
  }
}
