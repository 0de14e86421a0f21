/** Any number of cache workers, turns or none: over every run, exactly which purges strand an object. */
module Strandings {
  import opened ThumbnailKeys
  import opened CacheProtocol

  /** A purge that takes effect removes no row whose object a render put there and recorded. */
  ghost predicate Harmless(s: World, step: Step) {
    step.Purge? && step.w < |s.workers| && s.workers[step.w].Draining? && step.ids <= s.workers[step.w].deleted ==>
      forall rk :: rk in s.rows && s.rows[rk].id in step.ids && s.rows[rk].withdrawn ==> Safe(s, s.rows[rk].objectKey)
  }

  lemma PurgeAccountsIff(es: set<Entry>, s: World, step: Step)
    requires Universe(es) && WellKeyed(es, s) && RowsApart(s) && step.Purge?
    ensures var next := WorkStep(s, step);
            RowsApart(next) && (Accounted(s) ==> (Accounted(next) <==> Harmless(s, step)))
  {
    BucketRenders(es, s);
    hide Accounted, Safe, WellKeyed, Universe;
    if step.w < |s.workers| && s.workers[step.w].Draining? && step.ids <= s.workers[step.w].deleted && Accounted(s) {
      PurgeKeepsAccountIff(s, step.ids);
    }
  }

  lemma RecordAccountsFor(es: set<Entry>, s: World, r: nat)
    requires Universe(es) && WellKeyed(es, s) && RowsApart(s)
    ensures var next := RenderStep(es, s, Record(r));
            RowsApart(next) && (Accounted(s) ==> Accounted(next))
  {
    if r < |s.renders| && s.renders[r].stage == Stored && s.renders[r].bytes.Some? && s.renders[r].entry in es {
      RecordKeys(es, s, r);
      RecordShape(es, s, r);
      hide WellKeyed, ObjectKey, WellFormed, Bijective, RowKeyOf, RenderStep, Accounted, RowsApart, Safe;
      var rk, key := RowKeyOf(s.renders[r].entry), ObjectKey(s.renders[r].entry);
      var next := RenderStep(es, s, Record(r));
      RecordApart(s, next, rk, key);
      if Accounted(s) {
        RecordAccounts(s, next, r, rk, key);
      }
    }
  }

  lemma WithdrawApart(s: World, which: set<RowKey>)
    requires RowsApart(s)
    ensures RowsApart(s.(rows := WithdrawRows(s.rows, which)))
  {
  }

  /** Every other step leaves rows, ids and recorded renders, and puts no object without one. */
  lemma QuietAccounts(es: set<Entry>, s: World, step: Step)
    requires Universe(es) && RowsApart(s)
    requires !step.Record? && !step.Withdraw? && !step.Purge?
    ensures var next := Next(es, s, step);
            RowsApart(next) && (Accounted(s) ==> Accounted(next))
  {
    hide ObjectKey, WellFormed, RowKeyOf, Bijective, Accounted, RowsApart;
    var next := Next(es, s, step);
    assert next.rows == s.rows && next.nextId == s.nextId;
    SameRowsApart(s, next);
    if Accounted(s) {
      assert forall key :: Safe(s, key) ==> Safe(next, key);
      AccountFollows(s, next);
    }
  }

  lemma SameRowsApart(s: World, next: World)
    requires RowsApart(s) && next.rows == s.rows && next.nextId == s.nextId
    ensures RowsApart(next)
  {
  }

  lemma StepAccountsIff(es: set<Entry>, s: World, step: Step)
    requires Universe(es) && WellKeyed(es, s) && RowsApart(s)
    ensures var next := Next(es, s, step);
            RowsApart(next) && (Accounted(s) ==> (Accounted(next) <==> Harmless(s, step)))
  {
    hide Accounted, RowsApart, WellKeyed, Universe, Bijective, WellFormed;
    match step
    case Record(r) => RecordAccountsFor(es, s, r);
    case Purge(w, ids) => PurgeAccountsIff(es, s, step);
    case Withdraw(w, which) =>
      WithdrawApart(s, which);
      if Accounted(s) {
        WithdrawAccounts(s, which);
      }
    case _ =>
      QuietAccounts(es, s, step);
      hide Next;
  }

  lemma {:induction false} RunApart(es: set<Entry>, steps: seq<Step>)
    requires Universe(es)
    ensures RowsApart(Run(es, steps))
    decreases |steps|
  {
    hide Next, WellKeyed, Bijective, WellFormed;
    if steps != [] {
      RunApart(es, steps[..|steps| - 1]);
      RunKeeps(es, steps[..|steps| - 1]);
      StepAccountsIff(es, Run(es, steps[..|steps| - 1]), steps[|steps| - 1]);
    }
  }

  /** In every state of the run each object no row names is one a render has still to record. */
  ghost predicate AlwaysAccounted(es: set<Entry>, steps: seq<Step>)
    requires forall e :: e in es ==> WellFormed(e)
    decreases |steps|
  {
    Accounted(Run(es, steps)) && (steps != [] ==> AlwaysAccounted(es, steps[..|steps| - 1]))
  }

  /** Every purge of the run is harmless where it strikes. */
  ghost predicate HarmlessPurges(es: set<Entry>, steps: seq<Step>)
    requires forall e :: e in es ==> WellFormed(e)
    decreases |steps|
  {
    steps != [] ==> HarmlessPurges(es, steps[..|steps| - 1]) && Harmless(Run(es, steps[..|steps| - 1]), steps[|steps| - 1])
  }

  /** With any number of workers at any moments, no object is ever stranded if and only if no purge removes a
      row whose object a render has put back and recorded. */
  lemma {:induction false} NothingStrandedIff(es: set<Entry>, steps: seq<Step>)
    requires Universe(es)
    ensures AlwaysAccounted(es, steps) <==> HarmlessPurges(es, steps)
    decreases |steps|
  {
    hide Next, Bijective, WellFormed, WellKeyed, RowsApart, Harmless, Accounted;
    if steps == [] {
      EmptyAccounted();
    } else {
      var init, last := steps[..|steps| - 1], steps[|steps| - 1];
      NothingStrandedIff(es, init);
      RunApart(es, init);
      RunKeeps(es, init);
      StepAccountsIff(es, Run(es, init), last);
    }
  }

  lemma EmptyAccounted()
    ensures Accounted(NOTHING)
  {
  }
}
