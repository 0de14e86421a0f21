/** Renders, readers and cache workers interleaved at every step, over a row table and a bucket that share no
    transaction. */
module CacheProtocol {
  import opened Common
  import opened ThumbnailKeys

  type Bytes = seq<bv8>

  /** Stored is between the Put and the upsert, Recorded after it. */
  datatype Stage = Rendering | Stored | Recorded | Failed

  datatype Render = Render(entry: Entry, bytes: Option<Bytes>, stage: Stage)

  datatype Row = Row(id: nat, objectKey: string, withdrawn: bool)

  /** A read between its row lookup and its bucket fetch. */
  datatype Reader = Reader(entry: Entry, objectKey: string)

  datatype Answer = Answer(entry: Entry, bytes: Bytes)

  datatype Item = Item(id: nat, objectKey: string)

  /** batch is what the drain listed; deleted the ids whose objects it has removed since. */
  datatype Worker =
    | Idle
    | Marking
    | Draining(batch: set<Item>, deleted: set<nat>)
    | Sweeping(unnamed: set<string>)

  /** The bucket remembers which render last put each object; the program keeps no such record. */
  datatype World = World(
    rows: map<RowKey, Row>,
    nextId: nat,
    bucket: map<string, nat>,
    renders: seq<Render>,
    readers: seq<Reader>,
    workers: seq<Worker>,
    answers: seq<Answer>)

  const NOTHING := World(map[], 0, map[], [], [], [], [])

  datatype Step =
    | Start(e: Entry)
    | Store(r: nat, bytes: Bytes)
    | Record(r: nat)
    | Fail(r: nat)
    | Lookup(e: Entry)
    | Fetch(i: nat)
    | Share(i: nat, e: Entry) // a caller of the same flight takes its result
    | Hire
    | Begin(w: nat)
    | Withdraw(w: nat, which: set<RowKey>)
    | ListPending(w: nat, which: set<RowKey>)
    | Delete(w: nat, item: Item, ok: bool)
    | Purge(w: nat, ids: set<nat>)
    | Query(w: nat, keys: set<string>)
    | DeleteOrphan(w: nat, key: string)
    | Stop(w: nat) // done, failed or crashed

  predicate Named(rows: map<RowKey, Row>, key: string) {
    exists rk :: rk in rows && rows[rk].objectKey == key
  }

  function WithdrawRows(rows: map<RowKey, Row>, which: set<RowKey>): map<RowKey, Row> {
    map rk | rk in rows :: if rk in which then rows[rk].(withdrawn := true) else rows[rk]
  }

  /** DELETE ... WHERE id = ANY(ids) AND pending_delete_at IS NOT NULL. */
  function PurgeRows(rows: map<RowKey, Row>, ids: set<nat>): map<RowKey, Row> {
    map rk | rk in rows && !(rows[rk].id in ids && rows[rk].withdrawn) :: rows[rk]
  }

  /** On conflict the row keeps its id and is live again. */
  function Upsert(s: World, rk: RowKey, key: string): World {
    if rk in s.rows then s.(rows := s.rows[rk := Row(s.rows[rk].id, key, false)])
    else s.(rows := s.rows[rk := Row(s.nextId, key, false)], nextId := s.nextId + 1)
  }

  function Listing(rows: map<RowKey, Row>, which: set<RowKey>): set<Item> {
    set rk | rk in rows && rk in which && rows[rk].withdrawn :: Item(rows[rk].id, rows[rk].objectKey)
  }

  function Set(s: World, w: nat, worker: Worker): World
    requires w < |s.workers|
  {
    s.(workers := s.workers[w := worker])
  }

  // ---- the steps; one that is not enabled changes nothing ----

  function RenderStep(es: set<Entry>, s: World, step: Step): World
    requires forall e :: e in es ==> WellFormed(e)
    requires step.Start? || step.Store? || step.Record? || step.Fail?
  {
    if step.Start? then
      if step.e in es then s.(renders := s.renders + [Render(step.e, None, Rendering)]) else s
    else if step.r >= |s.renders| then s
    else
      var render := s.renders[step.r];
      match step
      case Store(r, bytes) =>
        // A render that produced no bytes fails instead.
        if render.stage == Rendering && bytes != [] then
          s.(renders := s.renders[r := Render(render.entry, Some(bytes), Stored)], bucket := s.bucket[ObjectKey(render.entry) := r])
        else s
      case Record(r) =>
        if render.stage == Stored && render.bytes.Some? && render.entry in es then
          Upsert(s, RowKeyOf(render.entry), ObjectKey(render.entry)).(
            renders := s.renders[r := render.(stage := Recorded)],
            answers := s.answers + [Answer(render.entry, render.bytes.value)])
        else s
      case Fail(r) => if render.stage == Recorded then s else s.(renders := s.renders[r := render.(stage := Failed)])
  }

  function ReadStep(es: set<Entry>, s: World, step: Step): World
    requires forall e :: e in es ==> WellFormed(e)
    requires step.Lookup? || step.Fetch? || step.Share?
  {
    match step
    case Lookup(e) =>
      if e in es && RowKeyOf(e) in s.rows && !s.rows[RowKeyOf(e)].withdrawn
      then s.(readers := s.readers + [Reader(e, s.rows[RowKeyOf(e)].objectKey)])
      else s
    case Fetch(i) =>
      if i < |s.readers| && s.readers[i].objectKey in s.bucket then
        var r := s.bucket[s.readers[i].objectKey];
        if r < |s.renders| && s.renders[r].bytes.Some?
        then s.(answers := s.answers + [Answer(s.readers[i].entry, s.renders[r].bytes.value)])
        else s
      else s
    case Share(i, e) =>
      if e in es && i < |s.answers| && ObjectKey(e) == ObjectKey(s.answers[i].entry)
      then s.(answers := s.answers + [Answer(e, s.answers[i].bytes)])
      else s
  }

  function WorkStep(s: World, step: Step): World
    requires !(step.Start? || step.Store? || step.Record? || step.Fail? || step.Lookup? || step.Fetch? || step.Share?)
  {
    if step.Hire? then s.(workers := s.workers + [Idle])
    else if step.w >= |s.workers| then s
    else
      var worker := s.workers[step.w];
      match step
      case Begin(w) => if worker.Idle? then Set(s, w, Marking) else s
      case Withdraw(w, which) => if worker.Marking? then s.(rows := WithdrawRows(s.rows, which)) else s
      case ListPending(w, which) =>
        if worker.Marking? || worker.Draining? then Set(s, w, Draining(Listing(s.rows, which), {})) else s
      case Delete(w, item, ok) =>
        if worker.Draining? && item in worker.batch && ok
        then Set(s, w, worker.(deleted := worker.deleted + {item.id})).(bucket := s.bucket - {item.objectKey})
        else s
      case Purge(w, ids) =>
        if worker.Draining? && ids <= worker.deleted then s.(rows := PurgeRows(s.rows, ids)) else s
      case Query(w, keys) =>
        if worker.Draining? || worker.Sweeping?
        then Set(s, w, Sweeping(set k | k in keys && k in s.bucket && !Named(s.rows, k)))
        else s
      case DeleteOrphan(w, key) =>
        if worker.Sweeping? && key in worker.unnamed then s.(bucket := s.bucket - {key}) else s
      case Stop(w) => Set(s, w, Idle)
  }

  function Next(es: set<Entry>, s: World, step: Step): World
    requires forall e :: e in es ==> WellFormed(e)
  {
    if step.Start? || step.Store? || step.Record? || step.Fail? then RenderStep(es, s, step)
    else if step.Lookup? || step.Fetch? || step.Share? then ReadStep(es, s, step)
    else WorkStep(s, step)
  }

  function RunFrom(es: set<Entry>, s: World, steps: seq<Step>): World
    requires forall e :: e in es ==> WellFormed(e)
    decreases |steps|
  {
    if steps == [] then s else Next(es, RunFrom(es, s, steps[..|steps| - 1]), steps[|steps| - 1])
  }

  function Run(es: set<Entry>, steps: seq<Step>): World
    requires forall e :: e in es ==> WellFormed(e)
    decreases |steps|
  {
    if steps == [] then NOTHING else Next(es, Run(es, steps[..|steps| - 1]), steps[|steps| - 1])
  }

  /** The entries requests may resolve to: well formed, and each version has one hash and each hash one version. */
  ghost predicate Universe(es: set<Entry>) {
    Bijective(es) && forall e :: e in es ==> WellFormed(e)
  }

  // ---- what a hit serves ----

  predicate RowFor(es: set<Entry>, rk: RowKey, key: string)
    requires forall e :: e in es ==> WellFormed(e)
  {
    exists e :: e in es && RowKeyOf(e) == rk && ObjectKey(e) == key
  }

  predicate StoredBy(s: World, key: string, r: nat) {
    && r < |s.renders| && s.renders[r].bytes.Some? && s.renders[r].stage != Rendering
    && ObjectKey(s.renders[r].entry) == key
  }

  /** Some render produced these bytes for exactly this entry. */
  predicate Produced(renders: seq<Render>, a: Answer) {
    exists r :: 0 <= r < |renders| && renders[r].entry == a.entry && renders[r].bytes == Some(a.bytes)
  }

  ghost predicate WellKeyed(es: set<Entry>, s: World)
    requires forall e :: e in es ==> WellFormed(e)
  {
    && (forall r :: 0 <= r < |s.renders| ==> s.renders[r].entry in es && (s.renders[r].stage == Rendering ==> s.renders[r].bytes.None?))
    && (forall rk :: rk in s.rows ==> RowFor(es, rk, s.rows[rk].objectKey))
    && (forall key :: key in s.bucket ==> StoredBy(s, key, s.bucket[key]))
    && (forall i :: 0 <= i < |s.readers| ==> s.readers[i].entry in es && s.readers[i].objectKey == ObjectKey(s.readers[i].entry))
    && (forall i :: 0 <= i < |s.answers| ==> s.answers[i].entry in es && Produced(s.renders, s.answers[i]))
  }

  /** Renders gain bytes once and keep them. */
  predicate Extends(a: seq<Render>, b: seq<Render>) {
    |a| <= |b| && forall r :: 0 <= r < |a| ==> b[r].entry == a[r].entry && (a[r].bytes.Some? ==> b[r].bytes == a[r].bytes)
  }

  lemma ProducedStays(a: seq<Render>, b: seq<Render>, answer: Answer)
    requires Extends(a, b) && Produced(a, answer)
    ensures Produced(b, answer)
  {
    var r :| 0 <= r < |a| && a[r].entry == answer.entry && a[r].bytes == Some(answer.bytes);
    assert b[r].entry == answer.entry && b[r].bytes == Some(answer.bytes);
  }

  lemma RenderAnswers(es: set<Entry>, s: World, step: Step)
    requires Universe(es) && WellKeyed(es, s)
    requires step.Start? || step.Store? || step.Record? || step.Fail?
    ensures var next := RenderStep(es, s, step);
            forall i :: 0 <= i < |next.answers| ==> next.answers[i].entry in es && Produced(next.renders, next.answers[i])
  {
    hide ObjectKey, RowKeyOf, WellFormed, Produced, RowFor, StoredBy, Bijective;
    var next := RenderStep(es, s, step);
    assert Extends(s.renders, next.renders);
    forall i | 0 <= i < |next.answers| ensures next.answers[i].entry in es && Produced(next.renders, next.answers[i]) {
      if i < |s.answers| {
        ProducedStays(s.renders, next.renders, s.answers[i]);
      } else {
        ProducedHere(next.renders, step.r, next.answers[i]);
      }
    }
  }

  lemma RenderKeeps(es: set<Entry>, s: World, step: Step)
    requires Universe(es) && WellKeyed(es, s)
    requires step.Start? || step.Store? || step.Record? || step.Fail?
    ensures WellKeyed(es, RenderStep(es, s, step))
  {
    hide ObjectKey, RowKeyOf, WellFormed, Produced, Bijective;
    RenderAnswers(es, s, step);
    var next := RenderStep(es, s, step);
    forall rk | rk in next.rows ensures RowFor(es, rk, next.rows[rk].objectKey) {
      assert rk in s.rows ==> RowFor(es, rk, s.rows[rk].objectKey);
    }
    forall key | key in next.bucket ensures StoredBy(next, key, next.bucket[key]) {
      assert key in s.bucket ==> StoredBy(s, key, s.bucket[key]);
    }
  }

  lemma ProducedHere(renders: seq<Render>, r: nat, a: Answer)
    requires r < |renders| && renders[r].entry == a.entry && renders[r].bytes == Some(a.bytes)
    ensures Produced(renders, a)
  {
  }

  lemma ReadKeeps(es: set<Entry>, s: World, step: Step)
    requires Universe(es) && WellKeyed(es, s)
    requires step.Lookup? || step.Fetch? || step.Share?
    ensures WellKeyed(es, ReadStep(es, s, step))
  {
    hide ObjectKey, RowKeyOf, WellFormed, Produced, Bijective;
    match step
    case Lookup(e) =>
      if e in es && RowKeyOf(e) in s.rows {
        assert RowFor(es, RowKeyOf(e), s.rows[RowKeyOf(e)].objectKey);
        var f :| f in es && RowKeyOf(f) == RowKeyOf(e) && ObjectKey(f) == s.rows[RowKeyOf(e)].objectKey;
        KeysAgree(es, e, f);
      }
    case Fetch(i) =>
      if i < |s.readers| && s.readers[i].objectKey in s.bucket {
        var r := s.bucket[s.readers[i].objectKey];
        assert StoredBy(s, s.readers[i].objectKey, r);
        KeysAgree(es, s.readers[i].entry, s.renders[r].entry);
        ProducedHere(s.renders, r, Answer(s.readers[i].entry, s.renders[r].bytes.value));
      }
    case Share(i, e) =>
      if e in es && i < |s.answers| {
        KeysAgree(es, e, s.answers[i].entry);
      }
  }

  lemma WorkKeeps(es: set<Entry>, s: World, step: Step)
    requires Universe(es) && WellKeyed(es, s)
    requires !(step.Start? || step.Store? || step.Record? || step.Fail? || step.Lookup? || step.Fetch? || step.Share?)
    ensures WellKeyed(es, WorkStep(s, step))
  {
    hide ObjectKey, RowKeyOf, WellFormed, Produced;
    var next := WorkStep(s, step);
    assert next.renders == s.renders;
    forall key | key in next.bucket ensures StoredBy(next, key, next.bucket[key]) {
      assert StoredBy(s, key, s.bucket[key]);
    }
    forall rk | rk in next.rows ensures RowFor(es, rk, next.rows[rk].objectKey) {
      assert RowFor(es, rk, s.rows[rk].objectKey);
    }
  }

  lemma {:induction false} RunKeeps(es: set<Entry>, steps: seq<Step>)
    requires Universe(es)
    ensures WellKeyed(es, Run(es, steps))
    decreases |steps|
  {
    hide WellFormed, Bijective, RenderStep, ReadStep, WorkStep;
    if steps != [] {
      var s, step := Run(es, steps[..|steps| - 1]), steps[|steps| - 1];
      RunKeeps(es, steps[..|steps| - 1]);
      hide WellKeyed;
      if step.Start? || step.Store? || step.Record? || step.Fail? {
        RenderKeeps(es, s, step);
      } else if step.Lookup? || step.Fetch? || step.Share? {
        ReadKeeps(es, s, step);
      } else {
        WorkKeeps(es, s, step);
      }
    }
  }

  /** Under every interleaving, whatever a reader, a renderer or a caller sharing a flight is answered with is
      bytes some render produced for exactly the version, page, size and format it asked for. */
  lemma EveryAnswerWasRenderedForItsEntry(es: set<Entry>, steps: seq<Step>, i: nat)
    requires Universe(es) && i < |Run(es, steps).answers|
    ensures var s := Run(es, steps);
            s.answers[i].entry in es && Produced(s.renders, s.answers[i])
  {
    RunKeeps(es, steps);
  }

  // ---- what the bucket holds ----

  /** Every object no row names was last put by a render whose upsert has not happened. */
  ghost predicate Accounted(s: World) {
    forall key :: key in s.bucket && !Named(s.rows, key) ==> Unrecorded(s, key)
  }

  predicate Unrecorded(s: World, key: string)
    requires key in s.bucket
  {
    s.bucket[key] < |s.renders| && s.renders[s.bucket[key]].stage != Recorded
  }

  /** No purge could strand the object: it is gone, or put again by a render that has yet to record it. */
  predicate Safe(s: World, key: string) {
    key in s.bucket ==> Unrecorded(s, key)
  }

  /** A row is its id's and its key's only row, and ids are fresh. */
  ghost predicate RowsApart(s: World) {
    && (forall rk :: rk in s.rows ==> s.rows[rk].id < s.nextId)
    && (forall a, b :: a in s.rows && b in s.rows && s.rows[a].id == s.rows[b].id ==> a == b)
    && (forall a, b :: a in s.rows && b in s.rows && s.rows[a].objectKey == s.rows[b].objectKey ==> a == b)
  }

  predicate ItemFits(s: World, item: Item) {
    item.id < s.nextId && forall rk :: rk in s.rows && s.rows[rk].id == item.id ==> s.rows[rk].objectKey == item.objectKey
  }

  predicate DeletedFits(s: World, id: nat) {
    id < s.nextId && forall rk :: rk in s.rows && s.rows[rk].id == id && s.rows[rk].withdrawn ==> Safe(s, s.rows[rk].objectKey)
  }

  ghost predicate WorkerFits(s: World, worker: Worker) {
    worker.Draining? ==>
      && (forall item :: item in worker.batch ==> ItemFits(s, item))
      && (forall id :: id in worker.deleted ==> DeletedFits(s, id))
  }

  ghost predicate Sound(es: set<Entry>, s: World)
    requires forall e :: e in es ==> WellFormed(e)
  {
    && WellKeyed(es, s) && Accounted(s) && RowsApart(s)
    && (forall w :: 0 <= w < |s.workers| ==> WorkerFits(s, s.workers[w]))
  }

  /** At most one cache worker is running. */
  ghost predicate OneTurn(s: World) {
    forall v, w :: 0 <= v < |s.workers| && 0 <= w < |s.workers| && s.workers[v] != Idle && s.workers[w] != Idle ==> v == w
  }

  /** The purge keeps the bucket accounted for exactly when no row it removes names an object last put by a
      render that has recorded it. */
  lemma PurgeKeepsAccountIff(s: World, ids: set<nat>)
    requires Accounted(s) && RowsApart(s) && forall key :: key in s.bucket ==> s.bucket[key] < |s.renders|
    ensures Accounted(s.(rows := PurgeRows(s.rows, ids)))
       <==> forall rk :: rk in s.rows && s.rows[rk].id in ids && s.rows[rk].withdrawn ==> Safe(s, s.rows[rk].objectKey)
  {
    var next := s.(rows := PurgeRows(s.rows, ids));
    if Accounted(next) {
      forall rk | rk in s.rows && s.rows[rk].id in ids && s.rows[rk].withdrawn ensures Safe(s, s.rows[rk].objectKey) {
        var key := s.rows[rk].objectKey;
        assert !Named(next.rows, key);
        assert key in next.bucket ==> Unrecorded(next, key);
      }
    } else {
      var key :| key in s.bucket && !Named(next.rows, key) && !Unrecorded(next, key);
      assert Named(s.rows, key) by {
        assert !Unrecorded(s, key);
      }
      var rk :| rk in s.rows && s.rows[rk].objectKey == key;
      assert rk !in next.rows;
      assert !Safe(s, key);
    }
  }

  // ---- every step keeps it ----

  lemma FitsFollow(s: World, next: World, worker: Worker)
    requires WorkerFits(s, worker) && s.nextId <= next.nextId
    requires forall rk :: rk in next.rows && next.rows[rk].id < s.nextId ==>
               rk in s.rows && s.rows[rk].id == next.rows[rk].id && s.rows[rk].objectKey == next.rows[rk].objectKey
    requires forall rk :: rk in next.rows && next.rows[rk].id < s.nextId && next.rows[rk].withdrawn ==>
               s.rows[rk].withdrawn && (Safe(s, next.rows[rk].objectKey) ==> Safe(next, next.rows[rk].objectKey))
    ensures WorkerFits(next, worker)
  {
    hide Safe;
    if worker.Draining? {
      forall item | item in worker.batch ensures ItemFits(next, item) {
        assert ItemFits(s, item);
      }
      forall id | id in worker.deleted ensures DeletedFits(next, id) {
        assert DeletedFits(s, id);
      }
    }
  }

  /** With the same rows, and no object made unsafe, everything still fits. */
  lemma AccountFollows(s: World, next: World)
    requires Accounted(s) && RowsApart(s)
    requires next.rows == s.rows && next.nextId == s.nextId
    requires forall key :: Safe(s, key) ==> Safe(next, key)
    ensures Accounted(next) && RowsApart(next)
    ensures forall worker :: WorkerFits(s, worker) ==> WorkerFits(next, worker)
  {
    forall key | key in next.bucket && !Named(next.rows, key) ensures Unrecorded(next, key) {
      assert Safe(s, key);
    }
    hide Safe, Accounted, RowsApart, WorkerFits;
    forall worker | WorkerFits(s, worker) ensures WorkerFits(next, worker) {
      FitsFollow(s, next, worker);
    }
  }

  /** Render steps that leave the rows alone, and record nothing. */
  lemma UnrecordedStepKeeps(es: set<Entry>, s: World, step: Step)
    requires Universe(es) && Sound(es, s)
    requires step.Start? || step.Store? || step.Fail?
    ensures Sound(es, RenderStep(es, s, step))
  {
    hide WellKeyed, ObjectKey, WellFormed, Bijective, RowKeyOf, Accounted, RowsApart, WorkerFits;
    RenderKeeps(es, s, step);
    AccountFollows(s, RenderStep(es, s, step));
  }

  /** A row stands for one entry, so its object key is that entry's. */
  lemma RowOfEntry(es: set<Entry>, s: World, rk: RowKey, e: Entry)
    requires Universe(es) && WellKeyed(es, s) && rk in s.rows && e in es
    ensures s.rows[rk].objectKey == ObjectKey(e) <==> rk == RowKeyOf(e)
  {
    assert RowFor(es, rk, s.rows[rk].objectKey);
    var f :| f in es && RowKeyOf(f) == rk && ObjectKey(f) == s.rows[rk].objectKey;
    KeysAgree(es, e, f);
  }

  lemma RecordKeys(es: set<Entry>, s: World, r: nat)
    requires Universe(es) && WellKeyed(es, s) && r < |s.renders| && s.renders[r].entry in es
    ensures var e := s.renders[r].entry;
            && (forall rk :: rk in s.rows ==> (s.rows[rk].objectKey == ObjectKey(e) <==> rk == RowKeyOf(e)))
            && (forall k :: k in s.bucket && s.bucket[k] == r ==> k == ObjectKey(e))
  {
    var e := s.renders[r].entry;
    forall rk | rk in s.rows ensures s.rows[rk].objectKey == ObjectKey(e) <==> rk == RowKeyOf(e) {
      RowOfEntry(es, s, rk, e);
    }
    forall k | k in s.bucket && s.bucket[k] == r ensures k == ObjectKey(e) {
      assert StoredBy(s, k, s.bucket[k]);
    }
  }

  lemma RecordKeeps(es: set<Entry>, s: World, r: nat)
    requires Universe(es) && Sound(es, s)
    requires r < |s.renders| && s.renders[r].stage == Stored && s.renders[r].bytes.Some? && s.renders[r].entry in es
    ensures Sound(es, RenderStep(es, s, Record(r)))
  {
    hide WellKeyed, ObjectKey, WellFormed, Bijective, RowKeyOf, RenderStep, Accounted, RowsApart;
    RenderKeeps(es, s, Record(r));
    RecordKeys(es, s, r);
    RecordShape(es, s, r);
    var rk, key := RowKeyOf(s.renders[r].entry), ObjectKey(s.renders[r].entry);
    var next := RenderStep(es, s, Record(r));
    RecordAccounts(s, next, r, rk, key);
    RecordApart(s, next, rk, key);
    hide WorkerFits, Safe;
    forall w | 0 <= w < |next.workers| ensures WorkerFits(next, next.workers[w]) {
      FitsFollow(s, next, s.workers[w]);
    }
  }

  lemma RecordShape(es: set<Entry>, s: World, r: nat)
    requires Universe(es)
    requires r < |s.renders| && s.renders[r].stage == Stored && s.renders[r].bytes.Some? && s.renders[r].entry in es
    ensures var next := RenderStep(es, s, Record(r));
            var rk := RowKeyOf(s.renders[r].entry);
            && next.rows == s.rows[rk := Row(if rk in s.rows then s.rows[rk].id else s.nextId, ObjectKey(s.renders[r].entry), false)]
            && next.nextId == (if rk in s.rows then s.nextId else s.nextId + 1)
            && next.bucket == s.bucket && next.workers == s.workers
            && next.renders == s.renders[r := s.renders[r].(stage := Recorded)]
  {
  }

  lemma RecordAccounts(s: World, next: World, r: nat, rk: RowKey, key: string)
    requires Accounted(s) && r < |s.renders|
    requires forall other :: other in s.rows ==> (s.rows[other].objectKey == key <==> other == rk)
    requires forall k :: k in s.bucket && s.bucket[k] == r ==> k == key
    requires next.rows == s.rows[rk := Row(if rk in s.rows then s.rows[rk].id else s.nextId, key, false)]
    requires next.bucket == s.bucket && next.renders == s.renders[r := s.renders[r].(stage := Recorded)]
    ensures Accounted(next)
    ensures forall k :: k != key && Safe(s, k) ==> Safe(next, k)
    ensures forall other :: other in next.rows && next.rows[other].withdrawn ==>
              other in s.rows && s.rows[other] == next.rows[other] && next.rows[other].objectKey != key
  {
    assert Named(next.rows, key) by {
      assert next.rows[rk].objectKey == key;
    }
    forall k | Named(s.rows, k) ensures Named(next.rows, k) {
      var other :| other in s.rows && s.rows[other].objectKey == k;
      assert next.rows[other].objectKey == k;
    }
    hide Named;
    forall k | k in next.bucket && !Named(next.rows, k) ensures Unrecorded(next, k) {
      assert Unrecorded(s, k);
    }
  }

  lemma RecordApart(s: World, next: World, rk: RowKey, key: string)
    requires RowsApart(s)
    requires forall other :: other in s.rows ==> (s.rows[other].objectKey == key <==> other == rk)
    requires next.rows == s.rows[rk := Row(if rk in s.rows then s.rows[rk].id else s.nextId, key, false)]
    requires next.nextId == (if rk in s.rows then s.nextId else s.nextId + 1)
    ensures RowsApart(next)
  {
  }

  lemma SetKeeps(es: set<Entry>, s: World, w: nat, worker: Worker)
    requires Universe(es) && Sound(es, s) && w < |s.workers| && WorkerFits(s, worker)
    ensures Sound(es, Set(s, w, worker))
  {
    assert WellKeyed(es, Set(s, w, worker)) by {
      SetKeyed(es, s, w, worker);
    }
    hide WellKeyed, Accounted, RowsApart, WorkerFits;
    assert forall key :: Safe(s, key) ==> Safe(Set(s, w, worker), key);
    AccountFollows(s, Set(s, w, worker));
  }

  lemma SetKeyed(es: set<Entry>, s: World, w: nat, worker: Worker)
    requires Universe(es) && WellKeyed(es, s) && w < |s.workers|
    ensures WellKeyed(es, Set(s, w, worker))
  {
    hide RowFor, Produced, ObjectKey, Bijective, WellFormed;
    forall key | key in s.bucket ensures StoredBy(Set(s, w, worker), key, s.bucket[key]) {
      assert StoredBy(s, key, s.bucket[key]);
    }
  }

  /** Steps of the workers that touch neither rows nor bucket. */
  lemma QuietStepKeeps(es: set<Entry>, s: World, step: Step)
    requires Universe(es) && Sound(es, s)
    requires step.Begin? || step.ListPending? || step.Query? || step.Stop?
    ensures Sound(es, WorkStep(s, step))
  {
    ListingFits(s, if step.ListPending? then step.which else {});
    hide Sound, Listing;
    if step.w < |s.workers| {
      match step
      case Begin(w) => SetKeeps(es, s, w, Marking);
      case ListPending(w, which) => SetKeeps(es, s, w, Draining(Listing(s.rows, which), {}));
      case Query(w, keys) => SetKeeps(es, s, w, Sweeping(set k | k in keys && k in s.bucket && !Named(s.rows, k)));
      case Stop(w) => SetKeeps(es, s, w, Idle);
    }
  }

  lemma HireKeeps(es: set<Entry>, s: World)
    requires Universe(es) && Sound(es, s)
    ensures Sound(es, WorkStep(s, Hire))
  {
    WorkKeeps(es, s, Hire);
    hide WellKeyed, Accounted, RowsApart;
    AccountFollows(s, WorkStep(s, Hire));
  }

  lemma ListingFits(s: World, which: set<RowKey>)
    requires RowsApart(s)
    ensures WorkerFits(s, Draining(Listing(s.rows, which), {}))
  {
  }

  lemma DeleteKeeps(es: set<Entry>, s: World, step: Step)
    requires Universe(es) && Sound(es, s)
    requires step.Delete? || step.DeleteOrphan?
    ensures Sound(es, WorkStep(s, step))
  {
    WorkKeeps(es, s, step);
    hide WellKeyed, Accounted, RowsApart;
    var next := WorkStep(s, step);
    if next != s {
      var key := if step.Delete? then step.item.objectKey else step.key;
      assert forall k :: Safe(s, k) ==> Safe(next, k);
      AccountFollows(s, next);
      if step.Delete? {
        DeletedItemFits(s, next, step.w, step.item);
      }
      hide WorkerFits;
      forall w | 0 <= w < |next.workers| ensures WorkerFits(next, next.workers[w]) {
        assert w != step.w || step.DeleteOrphan? ==> WorkerFits(s, s.workers[w]);
      }
    }
  }

  lemma DeletedItemFits(s: World, next: World, w: nat, item: Item)
    requires w < |s.workers| && s.workers[w].Draining? && item in s.workers[w].batch && WorkerFits(s, s.workers[w])
    requires next.rows == s.rows && next.nextId == s.nextId && next.renders == s.renders && next.bucket == s.bucket - {item.objectKey}
    requires WorkerFits(next, s.workers[w])
    ensures WorkerFits(next, s.workers[w].(deleted := s.workers[w].deleted + {item.id}))
  {
    assert ItemFits(s, item);
    assert DeletedFits(next, item.id);
    hide DeletedFits, ItemFits;
  }

  lemma PurgedWorkersFit(s: World, ids: set<nat>, worker: Worker)
    requires WorkerFits(s, worker)
    ensures WorkerFits(s.(rows := PurgeRows(s.rows, ids)), worker)
  {
    hide WorkerFits;
    FitsFollow(s, s.(rows := PurgeRows(s.rows, ids)), worker);
  }

  lemma BucketRenders(es: set<Entry>, s: World)
    requires Universe(es) && WellKeyed(es, s)
    ensures forall key :: key in s.bucket ==> s.bucket[key] < |s.renders|
  {
    forall key | key in s.bucket ensures s.bucket[key] < |s.renders| {
      assert StoredBy(s, key, s.bucket[key]);
    }
  }

  lemma PurgeKeeps(es: set<Entry>, s: World, w: nat, ids: set<nat>)
    requires Universe(es) && Sound(es, s)
    ensures Sound(es, WorkStep(s, Purge(w, ids)))
  {
    WorkKeeps(es, s, Purge(w, ids));
    BucketRenders(es, s);
    var next := WorkStep(s, Purge(w, ids));
    if next != s {
      hide WellKeyed, Accounted, Safe;
      forall rk | rk in s.rows && s.rows[rk].id in ids && s.rows[rk].withdrawn ensures Safe(s, s.rows[rk].objectKey) {
        assert DeletedFits(s, s.rows[rk].id);
      }
      PurgeKeepsAccountIff(s, ids);
      assert next == s.(rows := PurgeRows(s.rows, ids));
      assert RowsApart(next);
      hide WorkerFits, RowsApart, PurgeRows;
      forall v | 0 <= v < |next.workers| ensures WorkerFits(next, next.workers[v]) {
        PurgedWorkersFit(s, ids, s.workers[v]);
      }
    }
  }

  lemma WithdrawAccounts(s: World, which: set<RowKey>)
    requires Accounted(s) && RowsApart(s)
    ensures var next := s.(rows := WithdrawRows(s.rows, which));
            Accounted(next) && RowsApart(next)
  {
    var next := s.(rows := WithdrawRows(s.rows, which));
    forall key | Named(s.rows, key) ensures Named(next.rows, key) {
      var rk :| rk in s.rows && s.rows[rk].objectKey == key;
      assert rk in next.rows && next.rows[rk].objectKey == key;
    }
    hide Named;
    forall key | key in next.bucket && !Named(next.rows, key) ensures Unrecorded(next, key) {
      assert Unrecorded(s, key);
    }
  }

  /** Only a worker that has listed nothing yet withdraws rows, and while it does no other is draining. */
  lemma WithdrawKeeps(es: set<Entry>, s: World, w: nat, which: set<RowKey>)
    requires Universe(es) && Sound(es, s) && OneTurn(s)
    ensures Sound(es, WorkStep(s, Withdraw(w, which)))
  {
    WorkKeeps(es, s, Withdraw(w, which));
    hide WellKeyed, Accounted, RowsApart, WithdrawRows, ItemFits, DeletedFits;
    WithdrawAccounts(s, which);
    var next := WorkStep(s, Withdraw(w, which));
    if w < |s.workers| && s.workers[w].Marking? {
      forall v | 0 <= v < |next.workers| ensures WorkerFits(next, next.workers[v]) {
        assert s.workers[v] == Idle || v == w;
      }
    }
  }

  lemma StepSound(es: set<Entry>, s: World, step: Step)
    requires Universe(es) && Sound(es, s) && OneTurn(s)
    ensures Sound(es, Next(es, s, step))
  {
    match step
    case Record(r) =>
      if r < |s.renders| && s.renders[r].stage == Stored && s.renders[r].bytes.Some? && s.renders[r].entry in es {
        RecordKeeps(es, s, r);
      }
    case Withdraw(w, which) => WithdrawKeeps(es, s, w, which);
    case Purge(w, ids) => PurgeKeeps(es, s, w, ids);
    case Delete(w, item, ok) => DeleteKeeps(es, s, step);
    case DeleteOrphan(w, key) => DeleteKeeps(es, s, step);
    case Hire => HireKeeps(es, s);
    case _ =>
      if step.Start? || step.Store? || step.Fail? {
        UnrecordedStepKeeps(es, s, step);
      } else if step.Lookup? || step.Fetch? || step.Share? {
        ReadStepKeeps(es, s, step);
      } else {
        QuietStepKeeps(es, s, step);
      }
  }

  lemma ReadStepKeeps(es: set<Entry>, s: World, step: Step)
    requires Universe(es) && Sound(es, s)
    requires step.Lookup? || step.Fetch? || step.Share?
    ensures Sound(es, ReadStep(es, s, step))
  {
    hide WellKeyed, ObjectKey, RowKeyOf, WellFormed, Bijective, Accounted, RowsApart, WorkerFits;
    ReadKeeps(es, s, step);
    AccountFollows(s, ReadStep(es, s, step));
  }

  ghost predicate TakesTurns(es: set<Entry>, steps: seq<Step>)
    requires forall e :: e in es ==> WellFormed(e)
    decreases |steps|
  {
    OneTurn(Run(es, steps)) && (steps != [] ==> TakesTurns(es, steps[..|steps| - 1]))
  }

  /** With cache workers taking turns and renders interleaved anywhere, every bucket object no row names was
      last put by a render whose upsert has not happened: no drain ever strands an object. */
  lemma {:induction false} NoDrainStrandsAnObject(es: set<Entry>, steps: seq<Step>)
    requires Universe(es) && TakesTurns(es, steps)
    ensures Sound(es, Run(es, steps)) && Accounted(Run(es, steps))
    decreases |steps|
  {
    if steps != [] {
      NoDrainStrandsAnObject(es, steps[..|steps| - 1]);
      StepSound(es, Run(es, steps[..|steps| - 1]), steps[|steps| - 1]);
      hide Next, Sound;
    }
  }

  // ---- without turns ----

  lemma OneMore(es: set<Entry>, steps: seq<Step>, step: Step)
    requires forall e :: e in es ==> WellFormed(e)
    ensures Run(es, steps + [step]) == Next(es, Run(es, steps), step)
  {
    assert (steps + [step])[..|steps|] == steps;
  }

  /** One worker has withdrawn and listed an entry's row. */
  function ListedRun(e: Entry, bytes: Bytes): seq<Step>
    requires WellFormed(e)
  {
    [Hire] + [Hire] + [Start(e)] + [Store(0, bytes)] + [Record(0)] + [Begin(0)] + [Withdraw(0, {RowKeyOf(e)})]
    + [ListPending(0, {RowKeyOf(e)})]
  }

  /** It has deleted the object and not yet purged the row, and a second render has published the entry again. */
  function Republished(e: Entry, bytes: Bytes): seq<Step>
    requires WellFormed(e)
  {
    ListedRun(e, bytes) + [Delete(0, Item(0, ObjectKey(e)), true)] + [Start(e)] + [Store(1, bytes)] + [Record(1)]
  }

  lemma StoredState(e: Entry, bytes: Bytes)
    requires WellFormed(e) && bytes != []
    ensures Run({e}, [Hire] + [Hire] + [Start(e)] + [Store(0, bytes)])
         == World(map[], 0, map[ObjectKey(e) := 0], [Render(e, Some(bytes), Stored)], [], [Idle, Idle], [])
  {
    hide ObjectKey, RowKeyOf, WellFormed;
    var es := {e};
    OneMore(es, [], Hire);
    assert [] + [Hire] == [Hire];
    OneMore(es, [Hire], Hire);
    OneMore(es, [Hire] + [Hire], Start(e));
    OneMore(es, [Hire] + [Hire] + [Start(e)], Store(0, bytes));
  }

  lemma ListedState(e: Entry, bytes: Bytes)
    requires WellFormed(e) && bytes != []
    ensures Run({e}, ListedRun(e, bytes))
         == World(map[RowKeyOf(e) := Row(0, ObjectKey(e), true)], 1, map[ObjectKey(e) := 0],
                  [Render(e, Some(bytes), Recorded)], [], [Draining({Item(0, ObjectKey(e))}, {}), Idle], [Answer(e, bytes)])
  {
    hide ObjectKey, RowKeyOf, WellFormed, Run;
    var es, rk, key := {e}, RowKeyOf(e), ObjectKey(e);
    var p := [Hire] + [Hire] + [Start(e)] + [Store(0, bytes)];
    StoredState(e, bytes);
    OneMore(es, p, Record(0));
    OneMore(es, p + [Record(0)], Begin(0));
    OneMore(es, p + [Record(0)] + [Begin(0)], Withdraw(0, {rk}));
    var q := p + [Record(0)] + [Begin(0)] + [Withdraw(0, {rk})];
    assert Run(es, q).rows == map[rk := Row(0, key, true)];
    assert Run(es, q).workers == [Marking, Idle];
    OneMore(es, q, ListPending(0, {rk}));
    assert Listing(map[rk := Row(0, key, true)], {rk}) == {Item(0, key)};
  }

  lemma RepublishedState(e: Entry, bytes: Bytes)
    requires WellFormed(e) && bytes != []
    ensures Run({e}, Republished(e, bytes))
         == World(map[RowKeyOf(e) := Row(0, ObjectKey(e), false)], 1, map[ObjectKey(e) := 1],
                  [Render(e, Some(bytes), Recorded), Render(e, Some(bytes), Recorded)], [],
                  [Draining({Item(0, ObjectKey(e))}, {0}), Idle], [Answer(e, bytes), Answer(e, bytes)])
  {
    hide ObjectKey, RowKeyOf, WellFormed, Run, ListedRun;
    var es, key, t := {e}, ObjectKey(e), ListedRun(e, bytes);
    ListedState(e, bytes);
    OneMore(es, t, Delete(0, Item(0, key), true));
    var u := t + [Delete(0, Item(0, key), true)];
    var none: set<nat> := {};
    assert none + {0} == {0};
    assert Run(es, u).bucket == map[] && Run(es, u).workers == [Draining({Item(0, key)}, {0}), Idle];
    OneMore(es, u, Start(e));
    OneMore(es, u + [Start(e)], Store(1, bytes));
    assert Run(es, u + [Start(e)] + [Store(1, bytes)]).renders == [Render(e, Some(bytes), Recorded), Render(e, Some(bytes), Stored)];
    OneMore(es, u + [Start(e)] + [Store(1, bytes)], Record(1));
  }

  /** Turn-taking is needed: when a second worker withdraws the republished row before the first purges it,
      the purge strands the new object. */
  lemma TwoWorkersStrandAnObject(e: Entry, bytes: Bytes)
    requires WellFormed(e) && bytes != []
    ensures var steps := Republished(e, bytes) + [Begin(1)] + [Withdraw(1, {RowKeyOf(e)})] + [Purge(0, {0})];
            !Accounted(Run({e}, steps))
  {
    hide ObjectKey, RowKeyOf, WellFormed, Run, Republished;
    var es, p := {e}, Republished(e, bytes);
    RepublishedState(e, bytes);
    RewithdrawnState(e, bytes);
    OneMore(es, p + [Begin(1)] + [Withdraw(1, {RowKeyOf(e)})], Purge(0, {0}));
    var s := Run(es, p + [Begin(1)] + [Withdraw(1, {RowKeyOf(e)})] + [Purge(0, {0})]);
    assert s.rows == map[];
    assert ObjectKey(e) in s.bucket && !Unrecorded(s, ObjectKey(e));
  }

  /** The second worker has withdrawn the row the render put back. */
  lemma RewithdrawnState(e: Entry, bytes: Bytes)
    requires WellFormed(e) && bytes != []
    ensures var p := Republished(e, bytes);
            var s, t := Run({e}, p), Run({e}, p + [Begin(1)] + [Withdraw(1, {RowKeyOf(e)})]);
            && t.rows == WithdrawRows(s.rows, {RowKeyOf(e)}) && t.bucket == s.bucket && t.renders == s.renders
            && |t.workers| == |s.workers| == 2 && t.workers[0] == s.workers[0]
  {
    RepublishedState(e, bytes);
    hide ObjectKey, RowKeyOf, WellFormed, Run, Republished, WithdrawRows;
    var es, p := {e}, Republished(e, bytes);
    OneMore(es, p, Begin(1));
    OneMore(es, p + [Begin(1)], Withdraw(1, {RowKeyOf(e)}));
  }
}
