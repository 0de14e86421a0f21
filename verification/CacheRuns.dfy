/** The workers' loops and the interleaved protocol: what a loop leaves of the table and the bucket is what
    some run of one worker's steps leaves. */
module CacheRuns {
  import opened ThumbnailKeys
  import opened CacheProtocol
  import T = Thumbnails
  import W = CacheWorkers

  /** The two views of one table and one bucket; names gives each row's unique key. */
  ghost predicate Shows(s: World, rows: T.Rows, objects: set<string>, names: map<nat, RowKey>) {
    && s.bucket.Keys == objects
    && (forall id :: id in rows ==>
          && id in names && names[id] in s.rows
          && s.rows[names[id]] == Row(id, rows[id].objectKey, rows[id].withdrawn.Some?))
    && (forall rk :: rk in s.rows ==> s.rows[rk].id in rows && s.rows[rk].id in names && names[s.rows[rk].id] == rk)
  }

  predicate Of(step: Step, w: nat) {
    match step
    case Begin(v) => v == w
    case Withdraw(v, _) => v == w
    case ListPending(v, _) => v == w
    case Delete(v, _, _) => v == w
    case Purge(v, _) => v == w
    case Query(v, _) => v == w
    case DeleteOrphan(v, _) => v == w
    case _ => false
  }

  predicate AllOf(steps: seq<Step>, w: nat) {
    forall i :: 0 <= i < |steps| ==> Of(steps[i], w)
  }

  /** Steps of worker w alone lead from s to t. */
  ghost predicate Leads(es: set<Entry>, s: World, w: nat, t: World)
    requires forall e :: e in es ==> WellFormed(e)
  {
    exists steps :: AllOf(steps, w) && RunFrom(es, s, steps) == t
  }

  lemma LeadsItself(es: set<Entry>, s: World, w: nat)
    requires forall e :: e in es ==> WellFormed(e)
    ensures Leads(es, s, w, s)
  {
    assert AllOf([], w) && RunFrom(es, s, []) == s;
  }

  lemma LeadsOn(es: set<Entry>, s: World, w: nat, t: World, step: Step)
    requires (forall e :: e in es ==> WellFormed(e)) && Leads(es, s, w, t) && Of(step, w)
    ensures Leads(es, s, w, Next(es, t, step))
  {
    hide Next;
    var steps :| AllOf(steps, w) && RunFrom(es, s, steps) == t;
    assert (steps + [step])[..|steps|] == steps;
    assert AllOf(steps + [step], w) && RunFrom(es, s, steps + [step]) == Next(es, t, step);
  }

  // ---- marking ----

  function NamesOf(rows: T.Rows, names: map<nat, RowKey>, ids: set<nat>): set<RowKey> {
    set id | id in ids && id in rows && id in names :: names[id]
  }

  lemma NamedOnce(s: World, rows: T.Rows, objects: set<string>, names: map<nat, RowKey>, ids: set<nat>, id: nat)
    requires Shows(s, rows, objects, names) && id in rows
    ensures names[id] in NamesOf(rows, names, ids) <==> id in ids
  {
    if names[id] in NamesOf(rows, names, ids) {
      var j :| j in ids && j in rows && j in names && names[j] == names[id];
      assert s.rows[names[j]].id == j && s.rows[names[id]].id == id;
    }
  }

  /** MarkThumbnailsPendingDelete and the stale marks. */
  lemma MarkLeads(es: set<Entry>, s: World, w: nat, rows: T.Rows, objects: set<string>, names: map<nat, RowKey>, ids: set<nat>, now: int)
    requires (forall e :: e in es ==> WellFormed(e)) && Shows(s, rows, objects, names) && w < |s.workers| && s.workers[w] == Marking
    ensures var t := s.(rows := WithdrawRows(s.rows, NamesOf(rows, names, ids)));
            Leads(es, s, w, t) && Shows(t, T.Mark(rows, ids, now), objects, names)
  {
    var which := NamesOf(rows, names, ids);
    LeadsItself(es, s, w);
    LeadsOn(es, s, w, s, Withdraw(w, which));
    assert Next(es, s, Withdraw(w, which)) == s.(rows := WithdrawRows(s.rows, which));
    forall id | id in rows ensures names[id] in which <==> id in ids {
      NamedOnce(s, rows, objects, names, ids, id);
    }
    hide NamesOf;
  }

  // ---- the drain ----

  /** The listing of the rows the drain tries. */
  function Batch(rows: T.Rows, ids: seq<nat>): set<Item> {
    set id | id in ids :: Item(id, W.Key(rows, id))
  }

  lemma ListLeads(es: set<Entry>, s: World, w: nat, rows: T.Rows, objects: set<string>, names: map<nat, RowKey>, ids: seq<nat>)
    requires (forall e :: e in es ==> WellFormed(e)) && Shows(s, rows, objects, names)
    requires w < |s.workers| && (s.workers[w].Marking? || s.workers[w].Draining?)
    requires forall id :: id in ids ==> id in T.Withdrawn(rows)
    ensures Leads(es, s, w, Set(s, w, Draining(Batch(rows, ids), {})))
  {
    var which := NamesOf(rows, names, T.Ids(ids));
    LeadsItself(es, s, w);
    LeadsOn(es, s, w, s, ListPending(w, which));
    ListingIsBatch(s, rows, objects, names, ids);
    assert Next(es, s, ListPending(w, which)) == Set(s, w, Draining(Listing(s.rows, which), {}));
  }

  lemma ListingIsBatch(s: World, rows: T.Rows, objects: set<string>, names: map<nat, RowKey>, ids: seq<nat>)
    requires Shows(s, rows, objects, names) && forall id :: id in ids ==> id in T.Withdrawn(rows)
    ensures Listing(s.rows, NamesOf(rows, names, T.Ids(ids))) == Batch(rows, ids)
  {
    var which := NamesOf(rows, names, T.Ids(ids));
    forall item ensures item in Listing(s.rows, which) <==> item in Batch(rows, ids) {
      if item in Listing(s.rows, which) {
        var rk :| rk in s.rows && rk in which && s.rows[rk].withdrawn && item == Item(s.rows[rk].id, s.rows[rk].objectKey);
        NamedOnce(s, rows, objects, names, T.Ids(ids), s.rows[rk].id);
      }
      if item in Batch(rows, ids) {
        NamedOnce(s, rows, objects, names, T.Ids(ids), item.id);
        assert names[item.id] in which;
      }
    }
  }

  /** One delete after another, each as the store takes it. */
  lemma {:induction false} DeletesLead(es: set<Entry>, s: World, w: nat, rows: T.Rows, all: seq<nat>, n: nat, refused: set<string>)
    requires (forall e :: e in es ==> WellFormed(e)) && w < |s.workers| && n <= |all|
    requires Leads(es, s, w, Set(s, w, Draining(Batch(rows, all), {})))
    ensures var done := W.Succeeded(rows, all[..n], refused);
            Leads(es, s, w, Set(s, w, Draining(Batch(rows, all), done)).(bucket := s.bucket - W.KeysOf(rows, done)))
    decreases n
  {
    hide Leads, Next, W.Key;
    if n == 0 {
      assert W.Succeeded(rows, all[..0], refused) == {};
      assert s.bucket - W.KeysOf(rows, {}) == s.bucket;
    } else {
      DeletesLead(es, s, w, rows, all, n - 1, refused);
      var before := W.Succeeded(rows, all[..n - 1], refused);
      var t := Set(s, w, Draining(Batch(rows, all), before)).(bucket := s.bucket - W.KeysOf(rows, before));
      var item, ok := Item(all[n - 1], W.Key(rows, all[n - 1])), W.Key(rows, all[n - 1]) !in refused;
      LeadsOn(es, s, w, t, Delete(w, item, ok));
      DeleteShape(es, t, w, Batch(rows, all), before, item, ok);
      assert all[..n] == all[..n - 1] + [all[n - 1]];
      var after := W.Succeeded(rows, all[..n], refused);
      assert after == if ok then before + {all[n - 1]} else before;
      assert t.workers[w := Draining(Batch(rows, all), after)] == s.workers[w := Draining(Batch(rows, all), after)];
      if ok {
        W.KeysOfUnion(rows, before, {all[n - 1]}, {});
        assert s.bucket - W.KeysOf(rows, after) == s.bucket - W.KeysOf(rows, before) - {item.objectKey};
      }
    }
  }

  lemma DeleteShape(es: set<Entry>, t: World, w: nat, batch: set<Item>, before: set<nat>, item: Item, ok: bool)
    requires (forall e :: e in es ==> WellFormed(e)) && w < |t.workers| && t.workers[w] == Draining(batch, before) && item in batch
    ensures Next(es, t, Delete(w, item, ok))
         == if ok then Set(t, w, Draining(batch, before + {item.id})).(bucket := t.bucket - {item.objectKey}) else t
  {
  }

  /** What DrainPending leaves, however it fails, is what some run of its worker's steps leaves. */
  lemma DrainIsARun(es: set<Entry>, s: World, w: nat, rows: T.Rows, objects: set<string>, names: map<nat, RowKey>,
                    refused: set<string>, outage: W.Outage)
    requires (forall e :: e in es ==> WellFormed(e)) && Shows(s, rows, objects, names)
    requires w < |s.workers| && (s.workers[w].Marking? || s.workers[w].Draining?)
    ensures exists t ::
              && Leads(es, s, w, t) && w < |t.workers| && t.workers[w].Draining?
              && Shows(t, rows - W.PurgedIds(rows, refused, outage), objects - W.KeysOf(rows, W.DeletedIds(rows, refused, outage)), names)
  {
    W.PurgedIsWithdrawn(rows, refused, outage);
    T.PendingIsWithdrawn(rows);
    var pending := T.Pending(rows);
    var tried := pending[..W.Attempted(|pending|, W.FirstRefused(rows, pending, refused), outage)];
    forall id | id in tried ensures id in T.Withdrawn(rows) {
      assert id in T.Ids(pending);
    }
    var deleted, purged := W.DeletedIds(rows, refused, outage), W.PurgedIds(rows, refused, outage);
    assert W.Succeeded(rows, tried, refused) == deleted && tried[..|tried|] == tried;
    hide Leads, W.DeletedIds, W.PurgedIds, W.Succeeded, T.Pending, Batch, W.KeysOf, Next;
    ListLeads(es, s, w, rows, objects, names, tried);
    DeletesLead(es, s, w, rows, tried, |tried|, refused);
    var u := Set(s, w, Draining(Batch(rows, tried), deleted)).(bucket := s.bucket - W.KeysOf(rows, deleted));
    LeadsOn(es, s, w, u, Purge(w, purged));
    PurgeShape(es, u, w, purged);
    var t := u.(rows := PurgeRows(u.rows, purged));
    PurgeShows(s, t, rows, objects, names, purged, W.KeysOf(rows, deleted));
    assert Leads(es, s, w, t);
  }

  lemma PurgeShape(es: set<Entry>, u: World, w: nat, ids: set<nat>)
    requires (forall e :: e in es ==> WellFormed(e)) && w < |u.workers| && u.workers[w].Draining? && ids <= u.workers[w].deleted
    ensures Next(es, u, Purge(w, ids)) == u.(rows := PurgeRows(u.rows, ids))
  {
  }

  lemma PurgeShows(s: World, t: World, rows: T.Rows, objects: set<string>, names: map<nat, RowKey>, ids: set<nat>, keys: set<string>)
    requires Shows(s, rows, objects, names) && ids <= T.Withdrawn(rows)
    requires t.rows == PurgeRows(s.rows, ids) && t.bucket == s.bucket - keys
    ensures Shows(t, rows - ids, objects - keys, names)
  {
  }

  // ---- the sweep ----

  lemma {:induction false} LeadsAll(es: set<Entry>, s: World, w: nat, t: World, steps: seq<Step>)
    requires (forall e :: e in es ==> WellFormed(e)) && Leads(es, s, w, t) && AllOf(steps, w)
    ensures Leads(es, s, w, RunFrom(es, t, steps))
    decreases |steps|
  {
    hide Leads, Next;
    if steps != [] {
      LeadsAll(es, s, w, t, steps[..|steps| - 1]);
      LeadsOn(es, s, w, RunFrom(es, t, steps[..|steps| - 1]), steps[|steps| - 1]);
    }
  }

  lemma LeadsTrans(es: set<Entry>, s: World, w: nat, t: World, u: World)
    requires (forall e :: e in es ==> WellFormed(e)) && Leads(es, s, w, t) && Leads(es, t, w, u)
    ensures Leads(es, s, w, u)
  {
    var steps :| AllOf(steps, w) && RunFrom(es, t, steps) == u;
    LeadsAll(es, s, w, t, steps);
  }

  lemma {:induction false} OrphansLead(es: set<Entry>, s: World, w: nat, unnamed: set<string>, gone: seq<string>, n: nat)
    requires (forall e :: e in es ==> WellFormed(e)) && w < |s.workers| && n <= |gone|
    requires unnamed == set k | k in gone && k in s.bucket
    requires Leads(es, s, w, Set(s, w, Sweeping(unnamed)))
    ensures Leads(es, s, w, Set(s, w, Sweeping(unnamed)).(bucket := s.bucket - W.KeySet(gone[..n])))
    decreases n
  {
    hide Leads, Next;
    if n == 0 {
      assert s.bucket - W.KeySet(gone[..0]) == s.bucket;
    } else {
      OrphansLead(es, s, w, unnamed, gone, n - 1);
      var t := Set(s, w, Sweeping(unnamed)).(bucket := s.bucket - W.KeySet(gone[..n - 1]));
      LeadsOn(es, s, w, t, DeleteOrphan(w, gone[n - 1]));
      OrphanShape(es, t, w, unnamed, gone[n - 1]);
      assert gone[..n] == gone[..n - 1] + [gone[n - 1]];
      assert s.bucket - W.KeySet(gone[..n]) == t.bucket - {gone[n - 1]};
      if gone[n - 1] !in unnamed {
        assert gone[n - 1] !in t.bucket;
        assert t.bucket - {gone[n - 1]} == t.bucket;
      }
    }
  }

  lemma OrphanShape(es: set<Entry>, t: World, w: nat, unnamed: set<string>, key: string)
    requires (forall e :: e in es ==> WellFormed(e)) && w < |t.workers| && t.workers[w] == Sweeping(unnamed)
    ensures Next(es, t, DeleteOrphan(w, key)) == if key in unnamed then t.(bucket := t.bucket - {key}) else t
  {
  }

  lemma NamedIsReferenced(s: World, rows: T.Rows, objects: set<string>, names: map<nat, RowKey>, key: string)
    requires Shows(s, rows, objects, names)
    ensures Named(s.rows, key) ==> W.Referenced(rows, key)
  {
    if rk :| rk in s.rows && s.rows[rk].objectKey == key {
      assert rows[s.rows[rk].id].objectKey == key;
    }
  }

  /** Removing objects that no row names is a query and its deletes. */
  lemma OrphansAreARun(es: set<Entry>, s: World, w: nat, rows: T.Rows, objects: set<string>, names: map<nat, RowKey>, gone: seq<string>)
    requires (forall e :: e in es ==> WellFormed(e)) && Shows(s, rows, objects, names)
    requires w < |s.workers| && s.workers[w].Draining?
    requires forall k :: k in gone ==> !W.Referenced(rows, k)
    ensures exists t :: Leads(es, s, w, t) && Shows(t, rows, objects - W.KeySet(gone), names)
  {
    var keys := W.KeySet(gone);
    var unnamed := set k | k in keys && k in s.bucket && !Named(s.rows, k);
    forall k | k in gone ensures !Named(s.rows, k) {
      NamedIsReferenced(s, rows, objects, names, k);
    }
    LeadsItself(es, s, w);
    LeadsOn(es, s, w, s, Query(w, keys));
    assert Next(es, s, Query(w, keys)) == Set(s, w, Sweeping(unnamed));
    OrphansLead(es, s, w, unnamed, gone, |gone|);
    var t := Set(s, w, Sweeping(unnamed)).(bucket := s.bucket - keys);
    assert gone[..|gone|] == gone;
    hide Leads, Next;
    BucketShows(s, t, rows, objects, names, keys);
  }

  lemma BucketShows(s: World, t: World, rows: T.Rows, objects: set<string>, names: map<nat, RowKey>, keys: set<string>)
    requires Shows(s, rows, objects, names) && t.rows == s.rows && t.bucket == s.bucket - keys
    ensures Shows(t, rows, objects - keys, names)
  {
  }

  /** InvalidateThumbnailsWorker.Work and the sweep's first half. */
  lemma InvalidateIsARun(es: set<Entry>, s: World, w: nat, rows: T.Rows, objects: set<string>, names: map<nat, RowKey>,
                         stale: set<nat>, now: int, refused: set<string>, outage: W.Outage)
    requires (forall e :: e in es ==> WellFormed(e)) && Shows(s, rows, objects, names) && w < |s.workers| && s.workers[w] == Marking
    ensures var kept := T.Mark(rows, stale, now);
            exists t ::
              && Leads(es, s, w, t) && w < |t.workers| && t.workers[w].Draining?
              && Shows(t, kept - W.PurgedIds(kept, refused, outage), objects - W.KeysOf(kept, W.DeletedIds(kept, refused, outage)), names)
  {
    hide Leads, Shows, W.PurgedIds, W.DeletedIds, W.KeysOf, T.Mark, WithdrawRows;
    MarkLeads(es, s, w, rows, objects, names, stale, now);
    var kept := T.Mark(rows, stale, now);
    var u := s.(rows := WithdrawRows(s.rows, NamesOf(rows, names, stale)));
    DrainIsARun(es, u, w, kept, objects, names, refused, outage);
    var left, there := kept - W.PurgedIds(kept, refused, outage), objects - W.KeysOf(kept, W.DeletedIds(kept, refused, outage));
    var t :| Leads(es, u, w, t) && w < |t.workers| && t.workers[w].Draining? && Shows(t, left, there, names);
    LeadsTrans(es, s, w, u, t);
  }

  /** CacheSweepWorker.Work after a clean drain: every object its orphan pass removes, on whatever pages. */
  lemma SweepIsARun(es: set<Entry>, s: World, w: nat, rows: T.Rows, objects: set<string>, names: map<nat, RowKey>,
                    stale: set<nat>, now: int, refused: set<string>, outage: W.Outage, listing: seq<W.Object>, cutoff: int)
    requires (forall e :: e in es ==> WellFormed(e)) && Shows(s, rows, objects, names) && w < |s.workers| && s.workers[w] == Marking
    ensures var kept := T.Mark(rows, stale, now);
            var left := kept - W.PurgedIds(kept, refused, outage);
            var gone := W.UntilRefused(W.Orphans(left, listing, cutoff), refused);
            exists t :: Leads(es, s, w, t)
              && Shows(t, left, objects - W.KeysOf(kept, W.DeletedIds(kept, refused, outage)) - W.KeySet(gone), names)
  {
    hide Leads, Shows, W.PurgedIds, W.DeletedIds, W.KeysOf, T.Mark, W.Orphans, W.UntilRefused, W.KeySet;
    InvalidateIsARun(es, s, w, rows, objects, names, stale, now, refused, outage);
    var kept := T.Mark(rows, stale, now);
    var left, there := kept - W.PurgedIds(kept, refused, outage), objects - W.KeysOf(kept, W.DeletedIds(kept, refused, outage));
    var t :| Leads(es, s, w, t) && w < |t.workers| && t.workers[w].Draining? && Shows(t, left, there, names);
    var gone := W.UntilRefused(W.Orphans(left, listing, cutoff), refused);
    W.UntilRefusedWithin(W.Orphans(left, listing, cutoff), refused);
    forall k | k in gone ensures !W.Referenced(left, k) {
      W.OrphansAreUnreferenced(left, listing, cutoff, k);
    }
    OrphansAreARun(es, t, w, left, there, names, gone);
    var u :| Leads(es, t, w, u) && Shows(u, left, there - W.KeySet(gone), names);
    LeadsTrans(es, s, w, t, u);
  }
}
