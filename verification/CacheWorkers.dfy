/** The three cache workers: withdraw rows, drain what is withdrawn in batches, sweep the orphans. */
module CacheWorkers {
  import opened Common
  import opened Thumbnails

  const DRAIN_BATCH := 500
  const EVICTION_BATCH := 500

  /** Which statement of a drain fails, counting passes from 0.  A failure ends the drain, so one is enough. */
  datatype Outage = Healthy | ListFails(pass: nat) | PurgeFails(pass: nat)

  function Key(rows: Rows, id: nat): string {
    if id in rows then rows[id].objectKey else ""
  }

  function KeysOf(rows: Rows, ids: set<nat>): set<string> {
    set id | id in ids :: Key(rows, id)
  }

  /** How many of the pending rows come before the first whose object cannot be deleted. */
  function FirstRefused(rows: Rows, pending: seq<nat>, refused: set<string>): (f: nat)
    ensures f <= |pending|
    ensures forall i :: 0 <= i < f ==> Key(rows, pending[i]) !in refused
    ensures f < |pending| ==> Key(rows, pending[f]) in refused
  {
    if pending == [] || Key(rows, pending[0]) in refused then 0 else 1 + FirstRefused(rows, pending[1..], refused)
  }

  function Succeeded(rows: Rows, ids: seq<nat>, refused: set<string>): set<nat> {
    set id | id in ids && Key(rows, id) !in refused
  }

  /** The outage strikes: the drain gets as far as the statement that fails. */
  predicate Strikes(total: nat, f: nat, outage: Outage) {
    match outage
    case Healthy => false
    case ListFails(pass) => pass * DRAIN_BATCH <= f
    case PurgeFails(pass) => pass * DRAIN_BATCH <= f && pass * DRAIN_BATCH < total
  }

  function Min(a: nat, b: nat): nat {
    if a < b then a else b
  }

  /** How many of the pending rows' objects the drain tries to delete: up to the end of the batch in which
      anything first goes wrong. */
  function Attempted(total: nat, f: nat, outage: Outage): (n: nat)
    requires f <= total
    ensures n <= total
  {
    if Strikes(total, f, outage) then
      if outage.ListFails? then outage.pass * DRAIN_BATCH else Min(total, (outage.pass + 1) * DRAIN_BATCH)
    else if f == total then total
    else Min(total, (f / DRAIN_BATCH + 1) * DRAIN_BATCH)
  }

  /** How many of them are in batches that were purged. */
  function Purged(total: nat, f: nat, outage: Outage): (n: nat)
    requires f <= total
    ensures n <= Attempted(total, f, outage)
  {
    if Strikes(total, f, outage) then outage.pass * DRAIN_BATCH else Attempted(total, f, outage)
  }

  function DeletedIds(rows: Rows, refused: set<string>, outage: Outage): set<nat> {
    var pending := Pending(rows);
    var f := FirstRefused(rows, pending, refused);
    Succeeded(rows, pending[..Attempted(|pending|, f, outage)], refused)
  }

  function PurgedIds(rows: Rows, refused: set<string>, outage: Outage): set<nat> {
    var pending := Pending(rows);
    var f := FirstRefused(rows, pending, refused);
    Succeeded(rows, pending[..Purged(|pending|, f, outage)], refused)
  }

  predicate Clean(rows: Rows, refused: set<string>, outage: Outage) {
    var pending := Pending(rows);
    var f := FirstRefused(rows, pending, refused);
    f == |pending| && !Strikes(|pending|, f, outage)
  }

  // ---- what a drain achieves ----

  lemma PurgedIsWithdrawn(rows: Rows, refused: set<string>, outage: Outage)
    ensures PurgedIds(rows, refused, outage) <= DeletedIds(rows, refused, outage) <= Withdrawn(rows)
  {
    PendingIsWithdrawn(rows);
    var pending := Pending(rows);
    var f := FirstRefused(rows, pending, refused);
    var n, m := Purged(|pending|, f, outage), Attempted(|pending|, f, outage);
    forall id | id in pending[..n] ensures id in pending[..m] {
      assert pending[..n] == pending[..m][..n];
    }
    forall id | id in pending[..m] ensures id in Withdrawn(rows) {
      assert id in Ids(pending);
    }
  }

  /** A drain that reports no error has purged every withdrawn row. */
  lemma CleanDrainEmpties(rows: Rows, refused: set<string>, outage: Outage)
    requires Clean(rows, refused, outage)
    ensures PurgedIds(rows, refused, outage) == DeletedIds(rows, refused, outage) == Withdrawn(rows)
  {
    PendingIsWithdrawn(rows);
    var pending := Pending(rows);
    assert pending[..|pending|] == pending;
    forall id | id in Withdrawn(rows) ensures id in Succeeded(rows, pending, refused) {
      assert id in Ids(pending);
      var i :| 0 <= i < |pending| && pending[i] == id;
      assert Key(rows, pending[i]) !in refused;
    }
  }

  /** After delete failures the withdrawn rows left are exactly the failed ones and those past that batch. */
  lemma RefusalLeaves(rows: Rows, refused: set<string>, i: nat)
    requires i < |Pending(rows)|
    ensures var pending := Pending(rows);
            var f := FirstRefused(rows, pending, refused);
            pending[i] !in PurgedIds(rows, refused, Healthy)
            <==> Key(rows, pending[i]) in refused || (f < |pending| && i >= (f / 500 + 1) * 500)
  {
    PendingIsWithdrawn(rows);
    var pending := Pending(rows);
    var f := FirstRefused(rows, pending, refused);
    var n := Purged(|pending|, f, Healthy);
    if i < n {
      assert pending[..n][i] == pending[i];
    } else {
      assert pending[i] !in pending[..n];
    }
  }

  /** A healthy run after one that failed in any way finishes its work, and touches no live row. */
  lemma HealthyRetryFinishes(rows: Rows, refused: set<string>, outage: Outage)
    ensures var left := rows - PurgedIds(rows, refused, outage);
            && Clean(left, {}, Healthy)
            && left - PurgedIds(left, {}, Healthy) == rows - Withdrawn(rows)
            && Live(left) == Live(rows)
  {
    var left := rows - PurgedIds(rows, refused, outage);
    PurgedIsWithdrawn(rows, refused, outage);
    assert Clean(left, {}, Healthy);
    CleanDrainEmpties(left, {}, Healthy);
    assert Withdrawn(left) == Withdrawn(rows) - PurgedIds(rows, refused, outage);
  }

  /** Total bytes before are the bytes purged and the bytes that stay. */
  lemma DrainConserves(rows: Rows, refused: set<string>, outage: Outage)
    ensures var left := rows - PurgedIds(rows, refused, outage);
            Bytes(rows, rows.Keys) == Bytes(left, left.Keys) + Bytes(rows, PurgedIds(rows, refused, outage))
  {
    var purged := PurgedIds(rows, refused, outage);
    var left := rows - purged;
    PurgedIsWithdrawn(rows, refused, outage);
    BytesSplit(rows, left.Keys, purged);
    assert left.Keys + purged == rows.Keys;
    BytesSame(rows, left, left.Keys);
  }

  /** No drain, however it fails, deletes the object of a live row. */
  lemma DrainSparesLive(rows: Rows, refused: set<string>, outage: Outage, id: nat)
    requires UniqueKeys(rows) && id in Live(rows)
    ensures rows[id].objectKey !in KeysOf(rows, DeletedIds(rows, refused, outage))
  {
    PurgedIsWithdrawn(rows, refused, outage);
    forall j | j in DeletedIds(rows, refused, outage) ensures Key(rows, j) != rows[id].objectKey {
      assert j in Withdrawn(rows);
    }
  }

  // ---- steps of the loops ----

  lemma SucceededAll(rows: Rows, pending: seq<nat>, n: nat, refused: set<string>)
    requires n <= FirstRefused(rows, pending, refused)
    ensures Succeeded(rows, pending[..n], refused) == Ids(pending[..n])
  {
    forall id | id in pending[..n] ensures Key(rows, id) !in refused {
      var i :| 0 <= i < n && pending[i] == id;
    }
  }

  lemma SucceededNext(rows: Rows, pending: seq<nat>, n: nat, refused: set<string>)
    requires n < |pending|
    requires forall i, j :: 0 <= i < j < |pending| ==> pending[i] != pending[j]
    ensures var before, after := Succeeded(rows, pending[..n], refused), Succeeded(rows, pending[..n + 1], refused);
            && pending[n] !in before
            && (Key(rows, pending[n]) in refused ==> after == before)
            && (Key(rows, pending[n]) !in refused ==> after == before + {pending[n]})
  {
    assert pending[..n + 1] == pending[..n] + [pending[n]];
  }

  datatype Item = Item(id: nat, objectKey: string, size: nat)

  datatype Object = Object(key: string, modified: int)

  /** The keys a listing offers the orphan sweep: old enough, and known to no row, withdrawn or not. */
  function Orphans(rows: Rows, listing: seq<Object>, cutoff: int): seq<string> {
    if listing == [] then []
    else
      var rest := Orphans(rows, listing[1..], cutoff);
      if listing[0].modified <= cutoff && !Referenced(rows, listing[0].key) then [listing[0].key] + rest else rest
  }

  predicate Referenced(rows: Rows, key: string) {
    exists id :: id in rows && rows[id].objectKey == key
  }

  /** The sweep stops at the first object it cannot delete. */
  function UntilRefused(keys: seq<string>, refused: set<string>): seq<string> {
    if keys == [] || keys[0] in refused then [] else [keys[0]] + UntilRefused(keys[1..], refused)
  }

  lemma {:induction false} OrphansAreUnreferenced(rows: Rows, listing: seq<Object>, cutoff: int, key: string)
    ensures key in Orphans(rows, listing, cutoff)
       <==> !Referenced(rows, key) && exists i :: 0 <= i < |listing| && listing[i].key == key && listing[i].modified <= cutoff
  {
    if listing != [] {
      OrphansAreUnreferenced(rows, listing[1..], cutoff, key);
      if i :| 0 <= i < |listing[1..]| && listing[1..][i].key == key && listing[1..][i].modified <= cutoff {
        assert listing[i + 1].key == key;
      }
    }
  }

  lemma {:induction false} OrphansSplit(rows: Rows, a: seq<Object>, b: seq<Object>, cutoff: int)
    ensures Orphans(rows, a + b, cutoff) == Orphans(rows, a, cutoff) + Orphans(rows, b, cutoff)
  {
    if a == [] {
      assert a + b == b;
    } else {
      OrphansSplit(rows, a[1..], b, cutoff);
      assert (a + b)[1..] == a[1..] + b;
    }
  }

  lemma {:induction false} UntilRefusedIs(keys: seq<string>, refused: set<string>, n: nat)
    requires n <= |keys| && forall i :: 0 <= i < n ==> keys[i] !in refused
    requires n == |keys| || keys[n] in refused
    ensures UntilRefused(keys, refused) == keys[..n]
  {
    if n > 0 {
      UntilRefusedIs(keys[1..], refused, n - 1);
      assert keys[..n] == [keys[0]] + keys[1..][..n - 1];
    }
  }

  lemma {:induction false} UntilRefusedSplit(a: seq<string>, b: seq<string>, refused: set<string>)
    ensures UntilRefused(a + b, refused)
         == if UntilRefused(a, refused) == a then a + UntilRefused(b, refused) else UntilRefused(a, refused)
  {
    if a == [] {
      assert a + b == b;
    } else {
      UntilRefusedSplit(a[1..], b, refused);
      assert (a + b)[1..] == a[1..] + b;
      assert UntilRefused(a, refused) == a <==> a[0] !in refused && UntilRefused(a[1..], refused) == a[1..];
    }
  }

  lemma {:induction false} UntilRefusedShortens(keys: seq<string>, refused: set<string>)
    ensures UntilRefused(keys, refused) == keys || |UntilRefused(keys, refused)| < |keys|
  {
    if keys != [] {
      UntilRefusedShortens(keys[1..], refused);
    }
  }

  lemma {:induction false} UntilRefusedWithin(keys: seq<string>, refused: set<string>)
    ensures forall k :: k in UntilRefused(keys, refused) ==> k in keys
  {
    if keys != [] {
      UntilRefusedWithin(keys[1..], refused);
    }
  }

  /** No row's object is among the orphans. */
  lemma NamedIsNoOrphan(rows: Rows, listing: seq<Object>, cutoff: int, refused: set<string>)
    ensures forall id :: id in rows ==> rows[id].objectKey !in UntilRefused(Orphans(rows, listing, cutoff), refused)
  {
    forall id | id in rows ensures rows[id].objectKey !in UntilRefused(Orphans(rows, listing, cutoff), refused) {
      var key := rows[id].objectKey;
      UntilRefusedWithin(Orphans(rows, listing, cutoff), refused);
      OrphansAreUnreferenced(rows, listing, cutoff, key);
      assert Referenced(rows, key);
    }
  }

  function KeySet(keys: seq<string>): set<string> {
    set k | k in keys
  }

  lemma KeysGone(stock: set<string>, a: seq<string>, b: seq<string>)
    ensures stock - KeySet(a + b) == stock - KeySet(a) - KeySet(b)
    ensures stock - KeySet([]) == stock
  {
  }

  function Flat(pages: seq<seq<Object>>): seq<Object> {
    if pages == [] then [] else pages[0] + Flat(pages[1..])
  }

  /** The pages still to sweep, one page on. */
  lemma NextPage(rows: Rows, pages: seq<seq<Object>>, cutoff: int, refused: set<string>)
    requires pages != []
    ensures var page, rest := Orphans(rows, pages[0], cutoff), Orphans(rows, Flat(pages[1..]), cutoff);
            && Orphans(rows, Flat(pages), cutoff) == page + rest
            && UntilRefused(page + rest, refused)
               == (if UntilRefused(page, refused) == page then page + UntilRefused(rest, refused) else UntilRefused(page, refused))
            && (UntilRefused(page, refused) == page || |UntilRefused(page, refused)| < |page|)
  {
    UntilRefusedShortens(Orphans(rows, pages[0], cutoff), refused);
    OrphansSplit(rows, pages[0], Flat(pages[1..]), cutoff);
    UntilRefusedSplit(Orphans(rows, pages[0], cutoff), Orphans(rows, Flat(pages[1..]), cutoff), refused);
  }

  // ---- the eviction passes ----

  /** Which statement of the age pass fails, counting turns from 0. */
  datatype AgeOutage = Undisturbed | CandidatesFail(pass: nat) | MarkFails(pass: nat)

  datatype Stage = Aging | Fitting | Draining | Totalling

  /** The rows of so many full turns. */
  function Turns(pass: nat): (n: nat)
    ensures n == 500 * pass
  {
    pass * EVICTION_BATCH
  }

  predicate AgeStrikes(total: nat, outage: AgeOutage) {
    match outage
    case Undisturbed => false
    case CandidatesFail(pass) => Turns(pass) <= total
    case MarkFails(pass) => Turns(pass) < total
  }

  /** How many of the expired rows are withdrawn before the pass ends. */
  function AgeReach(total: nat, outage: AgeOutage): (n: nat)
    ensures n <= total
  {
    if AgeStrikes(total, outage) then Turns(outage.pass) else total
  }

  /** How many have been added to the bytes: a mark that fails has its batch counted already. */
  function AgeTallied(total: nat, outage: AgeOutage): (n: nat)
    ensures n <= total
  {
    if AgeStrikes(total, outage) && outage.MarkFails? then Min(total, Turns(outage.pass + 1))
    else AgeReach(total, outage)
  }

  predicate AgeNotYet(outage: AgeOutage, pass: nat) {
    outage == Undisturbed || outage.pass >= pass
  }

  /** How far the age pass has got when it leaves in this turn, done being what it has withdrawn. */
  lemma AgePassEnds(total: nat, outage: AgeOutage, pass: nat, done: nat, next: nat)
    requires done == Turns(pass) <= total && AgeNotYet(outage, pass) && next == Min(total, done + EVICTION_BATCH)
    ensures outage == CandidatesFail(pass) ==> AgeStrikes(total, outage) && AgeReach(total, outage) == AgeTallied(total, outage) == done
    ensures outage == MarkFails(pass) && done < total ==>
              AgeStrikes(total, outage) && AgeReach(total, outage) == done && AgeTallied(total, outage) == next
    ensures outage != CandidatesFail(pass) && !(outage == MarkFails(pass) && done < total) ==>
              if next - done < EVICTION_BATCH then
                !AgeStrikes(total, outage) && AgeReach(total, outage) == AgeTallied(total, outage) == next
              else
                AgeNotYet(outage, pass + 1) && next == Turns(pass + 1)
    ensures done <= next <= total
  {
  }

  function CreatedAt(rows: Rows, cutoff: int): map<nat, int> {
    map id | id in rows && id in Expired(rows, cutoff) :: rows[id].created
  }

  /** The age pass's work list, oldest first. */
  function Aged(rows: Rows, cutoff: int): seq<nat> {
    Ordered(CreatedAt(rows, cutoff))
  }

  function Oldest(rows: Rows, cutoff: int, n: nat): set<nat>
    requires n <= |Aged(rows, cutoff)|
  {
    Ids(Aged(rows, cutoff)[..n])
  }

  lemma AgedSorts(rows: Rows, cutoff: int)
    ensures Ids(Aged(rows, cutoff)) == Expired(rows, cutoff)
    ensures forall i, j :: 0 <= i < j < |Aged(rows, cutoff)| ==> Aged(rows, cutoff)[i] != Aged(rows, cutoff)[j]
    ensures forall i, j :: 0 <= i < j < |Aged(rows, cutoff)| ==>
              && Aged(rows, cutoff)[i] in rows && Aged(rows, cutoff)[j] in rows
              && rows[Aged(rows, cutoff)[i]].created <= rows[Aged(rows, cutoff)[j]].created
  {
    var at, s := CreatedAt(rows, cutoff), Aged(rows, cutoff);
    OrderedSorts(at);
    forall i, j | 0 <= i < j < |s|
      ensures s[i] != s[j] && s[i] in rows && s[j] in rows && rows[s[i]].created <= rows[s[j]].created
    {
      assert Before(at, s[i], s[j]);
    }
  }

  /** Once the oldest n are withdrawn, the query lists the others. */
  lemma AgedSuffix(rows: Rows, cutoff: int, n: nat, now: int)
    requires n <= |Aged(rows, cutoff)|
    ensures Aged(Mark(rows, Ids(Aged(rows, cutoff)[..n]), now), cutoff) == Aged(rows, cutoff)[n..]
    ensures forall id :: Size(Mark(rows, Ids(Aged(rows, cutoff)[..n]), now), id) == Size(rows, id)
    ensures forall s :: Bytes(Mark(rows, Ids(Aged(rows, cutoff)[..n]), now), s) == Bytes(rows, s)
  {
    var gone := Ids(Aged(rows, cutoff)[..n]);
    OrderedSuffix(CreatedAt(rows, cutoff), n);
    MarkWithdraws(rows, gone, now);
    assert CreatedAt(Mark(rows, gone, now), cutoff) == CreatedAt(rows, cutoff) - gone;
  }

  /** The rows withdrawn after a turn are those withdrawn before it and its batch. */
  lemma AgedMore(rows: Rows, cutoff: int, done: nat, next: nat, now: int)
    requires done <= next <= |Aged(rows, cutoff)|
    ensures var aged := Aged(rows, cutoff);
            && Bytes(rows, Ids(aged[..next])) == Bytes(rows, Ids(aged[..done])) + Bytes(rows, Ids(aged[done..next]))
            && Mark(Mark(rows, Ids(aged[..done]), now), Ids(aged[done..next]), now) == Mark(rows, Ids(aged[..next]), now)
            && forall i, j :: 0 <= i < j < next - done ==> aged[done..next][i] != aged[done..next][j]
  {
    hide Aged, Bytes, Mark, Expired, Ids;
    var aged := Aged(rows, cutoff);
    AgedSorts(rows, cutoff);
    IdsSplit(aged, done, next);
    BytesSplit(rows, Ids(aged[..done]), Ids(aged[done..next]));
    MarkTwice(rows, Ids(aged[..done]), Ids(aged[done..next]), now);
  }

  lemma IdsSplit(s: seq<nat>, n: nat, m: nat)
    requires n <= m <= |s| && forall i, j :: 0 <= i < j < |s| ==> s[i] != s[j]
    ensures Ids(s[..m]) == Ids(s[..n]) + Ids(s[n..m]) && Ids(s[..n]) !! Ids(s[n..m])
    ensures forall i, j :: 0 <= i < j < m - n ==> s[n..m][i] != s[n..m][j]
  {
    var a, b := s[..n], s[n..m];
    assert s[..m] == a + b;
    forall id | id in a ensures id !in b {
      var i :| 0 <= i < n && a[i] == id;
    }
  }

  /** Every row is as it was, but live ones past the age limit that are now withdrawn. */
  ghost predicate OnlyTooOld(was: Rows, rows: Rows, maxAge: int, now: int) {
    && rows.Keys == was.Keys
    && forall id :: id in was ==>
         rows[id] == was[id]
         || (maxAge > 0 && was[id].withdrawn.None? && was[id].created < now - maxAge && rows[id] == was[id].(withdrawn := Some(now)))
  }

  ghost predicate NoneTooOld(rows: Rows, maxAge: int, now: int) {
    maxAge > 0 ==> forall id :: id in rows && rows[id].withdrawn.None? ==> rows[id].created >= now - maxAge
  }

  lemma AgePassIsByAge(was: Rows, maxAge: int, now: int, outage: AgeOutage)
    ensures OnlyTooOld(was, Mark(was, AgedBy(was, maxAge, now, outage), now), maxAge, now)
    ensures maxAge > 0 && !AgeStrikes(|Aged(was, now - maxAge)|, outage) ==>
              NoneTooOld(Mark(was, AgedBy(was, maxAge, now, outage), now), maxAge, now)
  {
    if maxAge > 0 {
      AgedSorts(was, now - maxAge);
      AgedIsExpiredIf(was, maxAge, now, outage);
      forall id | id in AgedBy(was, maxAge, now, outage) ensures id in Expired(was, now - maxAge) {
        assert id in Ids(Aged(was, now - maxAge));
      }
      hide Aged, AgedBy, AgeStrikes;
    }
  }

  lemma AgedToIs(was: Rows, rows: Rows, maxAge: int, now: int, outage: AgeOutage, tallied: nat, bytes: nat)
    requires maxAge > 0
    requires AgedTo(was, rows, now - maxAge, now, AgeReach(|Aged(was, now - maxAge)|, outage), tallied, bytes)
    ensures rows == Mark(was, AgedBy(was, maxAge, now, outage), now)
  {
    hide Aged, Mark;
  }

  /** Why a row that was live may no longer be: it was past the age limit, or among the quota's of the rest. */
  predicate Evictable(was: Rows, maxAge: int, maxBytes: int, now: int, ageOutage: AgeOutage, id: nat)
    requires id in was
  {
    || (maxAge > 0 && was[id].created < now - maxAge)
    || (maxBytes > 0 && id in Over(Mark(was, AgedBy(was, maxAge, now, ageOutage), now), maxBytes))
  }

  /** Every row that was live is as it was, or evictable. */
  ghost predicate OnlyEvictable(was: Rows, rows: Rows, maxAge: int, maxBytes: int, now: int, ageOutage: AgeOutage) {
    forall id :: id in was && was[id].withdrawn.None? ==>
      (id in rows && rows[id] == was[id]) || Evictable(was, maxAge, maxBytes, now, ageOutage, id)
  }

  lemma AgedOnly(was: Rows, maxAge: int, maxBytes: int, now: int, outage: AgeOutage)
    ensures OnlyEvictable(was, Mark(was, AgedBy(was, maxAge, now, outage), now), maxAge, maxBytes, now, outage)
  {
    AgePassIsByAge(was, maxAge, now, outage);
    hide AgedBy, Over;
  }

  lemma MaintainedOnly(was: Rows, maxAge: int, maxBytes: int, now: int, ageOutage: AgeOutage, refused: set<string>, outage: Outage)
    ensures var aged := Mark(was, AgedBy(was, maxAge, now, ageOutage), now);
            var kept := Mark(aged, if maxBytes <= 0 then {} else Over(aged, maxBytes), now);
            OnlyEvictable(was, kept - PurgedIds(kept, refused, outage), maxAge, maxBytes, now, ageOutage)
  {
    AgedOnly(was, maxAge, maxBytes, now, ageOutage);
    var aged := Mark(was, AgedBy(was, maxAge, now, ageOutage), now);
    var kept := Mark(aged, if maxBytes <= 0 then {} else Over(aged, maxBytes), now);
    PurgedIsWithdrawn(kept, refused, outage);
    hide AgedBy, Over, PurgedIds, DeletedIds;
  }

  lemma MaintainedYoung(was: Rows, maxAge: int, maxBytes: int, now: int, refused: set<string>, outage: Outage)
    ensures var aged := Mark(was, if maxAge <= 0 then {} else Expired(was, now - maxAge), now);
            var kept := Mark(aged, if maxBytes <= 0 then {} else Over(aged, maxBytes), now);
            NoneTooOld(kept - PurgedIds(kept, refused, outage), maxAge, now)
  {
    hide Over, PurgedIds;
  }

  lemma NoneMarked(rows: Rows, now: int)
    ensures Mark(rows, {}, now) == rows
  {
  }

  /** The oldest n are withdrawn, and the bytes are those of the oldest `tallied`. */
  ghost predicate AgedTo(was: Rows, rows: Rows, cutoff: int, now: int, n: nat, tallied: nat, bytes: nat) {
    && n <= |Aged(was, cutoff)| && tallied <= |Aged(was, cutoff)|
    && rows == Mark(was, Oldest(was, cutoff, n), now) && bytes == Bytes(was, Oldest(was, cutoff, tallied))
  }

  lemma NoneAged(rows: Rows, cutoff: int, now: int, outage: AgeOutage)
    ensures AgedTo(rows, rows, cutoff, now, 0, 0, 0) && Turns(0) == 0 && AgeNotYet(outage, 0)
  {
    hide Aged;
    assert Oldest(rows, cutoff, 0) == {};
  }

  lemma NotAmong(s: seq<nat>, i: nat)
    requires i < |s| && forall j, k :: 0 <= j < k < |s| ==> s[j] != s[k]
    ensures s[i] !in Ids(s[..i]) && s[..i + 1] == s[..i] + [s[i]]
  {
  }

  /** What the age pass withdraws. */
  function AgedBy(rows: Rows, maxAge: int, now: int, outage: AgeOutage): set<nat> {
    if maxAge <= 0 then {} else Oldest(rows, now - maxAge, AgeReach(|Aged(rows, now - maxAge)|, outage))
  }

  lemma AgedIsExpired(rows: Rows, maxAge: int, now: int, outage: AgeOutage)
    requires maxAge > 0 ==> !AgeStrikes(|Aged(rows, now - maxAge)|, outage)
    ensures AgedBy(rows, maxAge, now, outage) == if maxAge <= 0 then {} else Expired(rows, now - maxAge)
  {
    if maxAge > 0 {
      AgedSorts(rows, now - maxAge);
      var aged := Aged(rows, now - maxAge);
      assert aged[..|aged|] == aged;
    }
  }

  lemma AgedIsExpiredIf(rows: Rows, maxAge: int, now: int, outage: AgeOutage)
    ensures maxAge > 0 && !AgeStrikes(|Aged(rows, now - maxAge)|, outage) ==>
              AgedBy(rows, maxAge, now, outage) == Expired(rows, now - maxAge)
  {
    if maxAge > 0 && !AgeStrikes(|Aged(rows, now - maxAge)|, outage) {
      AgedIsExpired(rows, maxAge, now, outage);
    }
  }

  /** An age pass that stops early has withdrawn the oldest: nothing it left is older than what it took. */
  lemma StoppedAgePassTakesOldest(rows: Rows, maxAge: int, now: int, outage: AgeOutage, taken: nat, left: nat)
    requires maxAge > 0
    requires taken in AgedBy(rows, maxAge, now, outage)
    requires left in Expired(rows, now - maxAge) && left !in AgedBy(rows, maxAge, now, outage)
    ensures taken in Expired(rows, now - maxAge) && rows[taken].created <= rows[left].created
  {
    hide Aged, Expired, AgeReach, AgeStrikes, Ids;
    AgedSorts(rows, now - maxAge);
    var aged := Aged(rows, now - maxAge);
    SplitAt(aged, AgeReach(|aged|, outage), taken, left);
  }

  lemma SplitAt(s: seq<nat>, n: nat, a: nat, b: nat)
    requires n <= |s| && a in Ids(s[..n]) && b in Ids(s) && b !in Ids(s[..n])
    ensures a in Ids(s) && exists i, j :: 0 <= i < j < |s| && s[i] == a && s[j] == b
  {
    assert s == s[..n] + s[n..];
    var i :| 0 <= i < n && s[..n][i] == a;
    var j :| 0 <= j < |s| - n && s[n..][j] == b;
    assert s[i] == a && s[n + j] == b;
  }

  lemma NoneExpired(rows: Rows, maxAge: int, now: int)
    ensures maxAge > 0 ==> Expired(Mark(rows, Expired(rows, now - maxAge), now), now - maxAge) == {}
  {
  }

  predicate QuotaFails(rows: Rows, maxBytes: int, queryFails: bool, markFails: bool) {
    maxBytes > 0 && (queryFails || (markFails && Over(rows, maxBytes) != {}))
  }

  /** A page whose every object is young asks the table nothing. */
  predicate HasOld(page: seq<Object>, cutoff: int) {
    exists i :: 0 <= i < |page| && page[i].modified <= cutoff
  }

  /** How many pages are swept before one whose reference query fails. */
  function SweepReach(pages: seq<seq<Object>>, cutoff: int, queryFails: Option<nat>): (n: nat)
    ensures n <= |pages|
  {
    if queryFails.Some? && queryFails.value < |pages| && HasOld(pages[queryFails.value], cutoff) then queryFails.value else |pages|
  }

  lemma {:induction false} NothingOld(rows: Rows, page: seq<Object>, cutoff: int)
    requires !HasOld(page, cutoff)
    ensures Orphans(rows, page, cutoff) == []
  {
    if page != [] {
      assert page[0].modified > cutoff;
      forall i | 0 <= i < |page[1..]| ensures page[1..][i].modified > cutoff {
        assert page[i + 1].modified > cutoff;
      }
      NothingOld(rows, page[1..], cutoff);
    }
  }

  /** Rows and bucket share no transaction: each statement and each bucket call is a step of its own. */
  class Cache {
    var rows: Rows
    var objects: set<string>

    constructor ()
      ensures rows == map[] && objects == {}
    {
      rows, objects := map[], {};
    }

    method PendingDeleteThumbnails(limit: nat) returns (items: seq<Item>)
      ensures var p := Pending(rows);
              |items| == Min(limit, |p|) && forall i :: 0 <= i < |items| ==> items[i] == Item(p[i], rows[p[i]].objectKey, rows[p[i]].size)
    {
      var p, table := Pending(rows), rows;
      items := seq(Min(limit, |p|), i requires 0 <= i < |p| && p[i] in table => Item(p[i], table[p[i]].objectKey, table[p[i]].size));
    }

    method PurgeThumbnails(ids: seq<nat>)
      modifies this
      ensures rows == old(rows) - (Ids(ids) * Withdrawn(old(rows))) && objects == old(objects)
    {
      rows := rows - (Ids(ids) * Withdrawn(rows));
    }

    method MarkThumbnailsPendingDelete(ids: seq<nat>, now: int)
      modifies this
      ensures rows == Mark(old(rows), Ids(ids), now) && objects == old(objects)
    {
      rows := Mark(rows, Ids(ids), now);
    }

    /** Deletes of absent objects succeed. */
    method DeleteObject(key: string, refused: set<string>) returns (ok: bool)
      modifies this
      ensures ok <==> key !in refused
      ensures rows == old(rows) && objects == old(objects) - (if ok then {key} else {})
    {
      ok := key !in refused;
      if ok {
        objects := objects - {key};
      }
    }

    /** One batch's deletes. ids are the rows it lists. */
    method DeleteObjects(batch: seq<Item>, refused: set<string>, ghost was: Rows, ghost ids: seq<nat>)
      returns (purge: seq<nat>, bytes: nat, failed: bool)
      requires |batch| == |ids| && forall i, j :: 0 <= i < j < |ids| ==> ids[i] != ids[j]
      requires forall i :: 0 <= i < |ids| ==> batch[i] == Item(ids[i], Key(was, ids[i]), Size(was, ids[i]))
      modifies this
      ensures rows == old(rows)
      ensures Ids(purge) == Succeeded(was, ids, refused) && |purge| == |Succeeded(was, ids, refused)|
      ensures bytes == Bytes(was, Succeeded(was, ids, refused))
      ensures objects == old(objects) - KeysOf(was, Succeeded(was, ids, refused))
      ensures failed <==> exists i :: 0 <= i < |ids| && Key(was, ids[i]) in refused
    {
      hide Bytes, KeysOf, Succeeded, Ids;
      purge, bytes, failed := [], 0, false;
      ghost var done: set<nat> := {};
      NothingDeleted(was, ids, refused, objects);
      var i := 0;
      while i < |batch|
        invariant 0 <= i <= |batch| && rows == old(rows)
        invariant done == Succeeded(was, ids[..i], refused)
        invariant Ids(purge) == done && |purge| == |done| && bytes == Bytes(was, done)
        invariant objects == old(objects) - KeysOf(was, done)
        invariant failed <==> exists j :: 0 <= j < i && Key(was, ids[j]) in refused
      {
        SucceededNext(was, ids, i, refused);
        var ok := DeleteObject(batch[i].objectKey, refused);
        if ok {
          OneMoreDeleted(was, done, ids[i], purge, old(objects));
          purge, bytes, done := purge + [batch[i].id], bytes + batch[i].size, done + {ids[i]};
        } else {
          failed := true;
        }
        i := i + 1;
      }
      assert ids[..i] == ids;
    }

    /** The body of one pass, after `done` rows: the deletes of a listed batch and the purge of what they
        removed. */
    method DrainBatch(batch: seq<Item>, refused: set<string>, purgeFails: bool, ghost was: Rows, ghost stock: set<string>, ghost done: nat)
      returns (count: nat, bytes: nat, failed: bool, purged: bool)
      requires done + |batch| <= |Pending(was)| && done <= FirstRefused(was, Pending(was), refused)
      requires rows == was - Ids(Pending(was)[..done]) && objects == stock - KeysOf(was, Ids(Pending(was)[..done]))
      requires forall i :: 0 <= i < |batch| ==>
                 batch[i] == Item(Pending(was)[done + i], Key(was, Pending(was)[done + i]), Size(was, Pending(was)[done + i]))
      modifies this
      ensures var all := Succeeded(was, Pending(was)[..done + |batch|], refused);
              && done + count == |all|
              && Bytes(was, Ids(Pending(was)[..done])) + bytes == Bytes(was, all)
              && objects == stock - KeysOf(was, all)
              && rows == (if purged then was - all else was - Ids(Pending(was)[..done]))
              && (count == 0 ==> all == Ids(Pending(was)[..done]))
      ensures failed <==> FirstRefused(was, Pending(was), refused) < done + |batch|
      ensures purged <==> count == 0 || !purgeFails
    {
      ghost var pending, next := Pending(was), done + |batch|;
      PendingIsWithdrawn(was);
      hide Succeeded, Bytes, KeysOf, Ids, FirstRefused, Pending, Key, Size, Withdrawn;
      BatchDone(was, pending, done, next, refused, stock);
      BatchSucceeds(was, pending, done, next, refused);
      BatchWithdrawn(was, pending, done, next, refused);
      var purge;
      purge, bytes, failed := DeleteObjects(batch, refused, was, pending[done..next]);
      count, purged := |purge|, true;
      if |purge| > 0 {
        if purgeFails {
          purged := false;
          return;
        }
        PurgeThumbnails(purge);
      } else {
        assert was - Ids(pending[..done]) - {} == was - Ids(pending[..done]);
      }
    }

    /** refused holds the keys whose deletion fails in this run; every row has a key of its own. */
    method DrainPending(refused: set<string>, outage: Outage) returns (count: nat, bytes: nat, ok: bool)
      modifies this
      ensures ok <==> Clean(old(rows), refused, outage)
      ensures rows == old(rows) - PurgedIds(old(rows), refused, outage)
      ensures objects == old(objects) - KeysOf(old(rows), DeletedIds(old(rows), refused, outage))
      ensures count == |DeletedIds(old(rows), refused, outage)|
      ensures bytes == Bytes(old(rows), DeletedIds(old(rows), refused, outage))
    {
      ghost var was, stock := rows, objects;
      ghost var pending := Pending(was);
      ghost var f := FirstRefused(was, pending, refused);
      PendingIsWithdrawn(was);
      NothingDone(was, stock, pending);
      hide Succeeded, Bytes, KeysOf, Ids, FirstRefused, Pending, Key, Size, Attempted, Purged, Strikes, Withdrawn;
      count, bytes := 0, 0;
      var pass := 0;
      while true
        invariant count == pass * DRAIN_BATCH <= f && NotYet(outage, pass)
        invariant rows == was - Ids(pending[..count])
        invariant objects == stock - KeysOf(was, Ids(pending[..count]))
        invariant bytes == Bytes(was, Ids(pending[..count]))
        decreases |pending| - count
      {
        SucceededAll(was, pending, count, refused);
        PendingSuffix(was, count);
        DistinctCount(pending, count);
        PassEnds(|pending|, f, outage, pass);
        if outage == ListFails(pass) {
          return count, bytes, false;
        }
        var batch := PendingDeleteThumbnails(DRAIN_BATCH);
        if |batch| == 0 {
          return count, bytes, true;
        }
        ghost var next := count + |batch|;
        BatchRows(was, count, batch);
        var deleted, more, failed, purged := DrainBatch(batch, refused, outage == PurgeFails(pass), was, stock, count);
        count, bytes := count + deleted, bytes + more;
        if !purged || failed {
          return count, bytes, false;
        }
        SucceededAll(was, pending, next, refused);
        DistinctCount(pending, next);
        if |batch| < DRAIN_BATCH {
          return count, bytes, true;
        }
        pass := pass + 1;
      }
    }

    /** SELECT ... ORDER BY (time, id) LIMIT. */
    method Select(at: map<nat, int>, limit: nat) returns (items: seq<Item>)
      requires at.Keys <= rows.Keys
      ensures var ids := Ordered(at);
              && |items| == Min(limit, |ids|)
              && forall i :: 0 <= i < |items| ==> items[i] == Item(ids[i], Key(rows, ids[i]), Size(rows, ids[i]))
    {
      hide Key, Size;
      var ids, table := Ordered(at), rows;
      items := seq(Min(limit, |ids|), i requires 0 <= i < |ids| => Item(ids[i], Key(table, ids[i]), Size(table, ids[i])));
    }

    /** Oldest first. */
    method ThumbnailEvictionCandidatesByAge(cutoff: int, limit: nat) returns (items: seq<Item>)
      ensures var aged := Aged(rows, cutoff);
              && |items| == Min(limit, |aged|)
              && forall i :: 0 <= i < |items| ==> items[i].id == aged[i] && items[i].size == Size(rows, aged[i])
    {
      var at := CreatedAt(rows, cutoff);
      items := Select(at, limit);
    }

    method ThumbnailEvictionCandidatesByQuota(maxBytes: int) returns (items: seq<Item>)
      ensures |items| == |Over(rows, maxBytes)|
      ensures forall i :: 0 <= i < |items| ==> items[i].id in Over(rows, maxBytes) && items[i].size == Size(rows, items[i].id)
      ensures forall i, j :: 0 <= i < j < |items| ==> Before(AccessedAt(rows), items[i].id, items[j].id)
    {
      hide Over, Size;
      OverIsOldest(rows, maxBytes);
      var over := Over(rows, maxBytes);
      var at := map id | id in rows && id in over :: rows[id].accessed;
      assert at.Keys == over;
      OrderedSorts(at);
      items := Select(at, |over|);
      assert forall i, j :: 0 <= i < j < |items| ==> Before(at, items[i].id, items[j].id);
    }

    /** Add up a candidate list. want is its ids. */
    method Tally(items: seq<Item>, ghost want: seq<nat>) returns (ids: seq<nat>, bytes: nat)
      requires |items| == |want| && forall i :: 0 <= i < |items| ==> items[i].id == want[i] && items[i].size == Size(rows, want[i])
      requires forall i, j :: 0 <= i < j < |want| ==> want[i] != want[j]
      ensures ids == want && bytes == Bytes(rows, Ids(want))
    {
      hide Bytes, Size, Ids;
      ids, bytes := [], 0;
      NothingDeleted(rows, [], {}, {});
      var i := 0;
      while i < |items|
        invariant 0 <= i <= |items| && ids == want[..i]
        invariant bytes == Bytes(rows, Ids(ids))
      {
        NotAmong(want, i);
        OneMoreDeleted(rows, Ids(ids), items[i].id, ids, {});
        ids, bytes := ids + [items[i].id], bytes + items[i].size;
        i := i + 1;
      }
    }

    /** One turn of the age pass, after the `done` oldest: its candidates, their bytes, and the mark. */
    method MarkAgedBatch(cutoff: int, now: int, queryFails: bool, markFails: bool, ghost was: Rows, ghost done: nat)
      returns (count: nat, bytes: nat, ok: bool)
      requires done <= |Aged(was, cutoff)| && rows == Mark(was, Oldest(was, cutoff, done), now)
      modifies this
      ensures objects == old(objects)
      ensures var aged := Aged(was, cutoff);
              var next := Min(|aged|, done + EVICTION_BATCH);
              && (ok <==> !queryFails && !(markFails && done < |aged|))
              && count == (if queryFails then 0 else next - done)
              && Bytes(was, Oldest(was, cutoff, done)) + bytes == Bytes(was, Oldest(was, cutoff, done + count))
              && rows == Mark(was, Oldest(was, cutoff, if ok then next else done), now)
    {
      hide Mark, Aged, Bytes, Size, Ids;
      ghost var aged := Aged(was, cutoff);
      count, bytes, ok := 0, 0, false;
      if queryFails {
        return;
      }
      AgedSuffix(was, cutoff, done, now);
      var candidates := ThumbnailEvictionCandidatesByAge(cutoff, EVICTION_BATCH);
      AgedMore(was, cutoff, done, done + |candidates|, now);
      var batch;
      batch, bytes := Tally(candidates, aged[done..done + |candidates|]);
      count := |batch|;
      if |candidates| == 0 {
        return count, bytes, true;
      }
      if markFails {
        return;
      }
      MarkThumbnailsPendingDelete(batch, now);
      ok := true;
    }

    /** A limit of zero or less disables the pass. */
    method MarkByAge(maxAge: int, now: int, outage: AgeOutage) returns (count: nat, bytes: nat, ok: bool)
      modifies this
      ensures objects == old(objects)
      ensures maxAge <= 0 ==> rows == old(rows) && count == bytes == 0 && ok
      ensures maxAge > 0 ==>
                var total := |Aged(old(rows), now - maxAge)|;
                && (ok <==> !AgeStrikes(total, outage))
                && count == AgeReach(total, outage)
                && AgedTo(old(rows), rows, now - maxAge, now, count, AgeTallied(total, outage), bytes)
      ensures OnlyTooOld(old(rows), rows, maxAge, now) && (ok ==> NoneTooOld(rows, maxAge, now))
    {
      hide Mark, Aged, Oldest, AgeStrikes, AgeReach, AgeTallied, AgedTo;
      ghost var was := rows;
      if maxAge <= 0 {
        return 0, 0, true;
      }
      count, bytes, ok := MarkAged(now - maxAge, now, outage);
      AgePassIsByAge(was, maxAge, now, outage);
      AgedToIs(was, rows, maxAge, now, outage, AgeTallied(|Aged(was, now - maxAge)|, outage), bytes);
    }

    /** One turn, and whether it is the last. */
    method AgeTurn(cutoff: int, now: int, outage: AgeOutage, pass: nat, ghost was: Rows, ghost done: nat, ghost sum: nat)
      returns (count: nat, bytes: nat, over: bool, ok: bool)
      requires done == Turns(pass) && AgeNotYet(outage, pass) && AgedTo(was, rows, cutoff, now, done, done, sum)
      modifies this
      ensures objects == old(objects)
      ensures over ==> var total := |Aged(was, cutoff)|;
                       && ok == !AgeStrikes(total, outage) && done + count == AgeReach(total, outage)
                       && AgedTo(was, rows, cutoff, now, done + count, AgeTallied(total, outage), sum + bytes)
      ensures !over ==> && 0 < count <= |Aged(was, cutoff)| - done && done + count == Turns(pass + 1) && AgeNotYet(outage, pass + 1)
                        && AgedTo(was, rows, cutoff, now, done + count, done + count, sum + bytes)
    {
      hide Mark, Aged, Bytes, Oldest, AgeStrikes, AgeReach, AgeTallied, Min, AgeNotYet, Turns;
      ghost var total := |Aged(was, cutoff)|;
      AgePassEnds(total, outage, pass, done, Min(total, done + EVICTION_BATCH));
      count, bytes, ok := MarkAgedBatch(cutoff, now, outage == CandidatesFail(pass), outage == MarkFails(pass), was, done);
      over := !ok || count < EVICTION_BATCH;
      if !ok {
        count := 0;
      }
    }

    method MarkAged(cutoff: int, now: int, outage: AgeOutage) returns (count: nat, bytes: nat, ok: bool)
      modifies this
      ensures objects == old(objects)
      ensures var total := |Aged(old(rows), cutoff)|;
              && (ok <==> !AgeStrikes(total, outage))
              && count == AgeReach(total, outage)
              && AgedTo(old(rows), rows, cutoff, now, count, AgeTallied(total, outage), bytes)
    {
      ghost var was := rows;
      hide AgedTo, Aged, Turns, AgeStrikes, AgeReach, AgeTallied, AgeNotYet;
      NoneAged(was, cutoff, now, outage);
      count, bytes := 0, 0;
      var pass := 0;
      while true
        invariant objects == old(objects)
        invariant count == Turns(pass) && AgeNotYet(outage, pass)
        invariant AgedTo(was, rows, cutoff, now, count, count, bytes)
        decreases |Aged(was, cutoff)| - count
      {
        var n, more, over, marked := AgeTurn(cutoff, now, outage, pass, was, count, bytes);
        count, bytes := count + n, bytes + more;
        if over {
          return count, bytes, marked;
        }
        pass := pass + 1;
      }
    }

    /** A statement that fails leaves every row as it was. */
    method MarkByQuota(maxBytes: int, now: int, queryFails: bool, markFails: bool) returns (count: nat, bytes: nat, ok: bool)
      modifies this
      ensures objects == old(objects)
      ensures ok <==> !QuotaFails(old(rows), maxBytes, queryFails, markFails)
      ensures var over := if maxBytes <= 0 || !ok then {} else Over(old(rows), maxBytes);
              rows == Mark(old(rows), over, now) && count == |over| && bytes == Bytes(old(rows), over)
    {
      assert Mark(rows, {}, now) == rows;
      if maxBytes <= 0 {
        return 0, 0, true;
      }
      if queryFails {
        return 0, 0, false;
      }
      var candidates := ThumbnailEvictionCandidatesByQuota(maxBytes);
      if |candidates| == 0 {
        assert Over(rows, maxBytes) == {};
        return 0, 0, true;
      }
      assert forall i, j :: 0 <= i < j < |candidates| ==> Before(AccessedAt(rows), candidates[i].id, candidates[j].id);
      ghost var want := seq(|candidates|, i requires 0 <= i < |candidates| => candidates[i].id);
      var ids, more := Tally(candidates, want);
      DistinctCount(want, |want|);
      assert want[..|want|] == want;
      SameSize(Ids(ids), Over(rows, maxBytes));
      if markFails {
        assert Over(rows, maxBytes) != {};
        return 0, 0, false;
      }
      MarkThumbnailsPendingDelete(ids, now);
      return |ids|, more, true;
    }

    /** EvictionMaintenanceWorker.Work: age, then quota, then one drain for both.  failed is the stage whose
        error the job reports; a drain's comes before that of the total behind it. */
    method Maintain(maxAge: int, maxBytes: int, now: int, ageOutage: AgeOutage, queryFails: bool, markFails: bool,
                    refused: set<string>, outage: Outage, totalFails: bool) returns (failed: Option<Stage>)
      modifies this
      ensures var expired := AgedBy(old(rows), maxAge, now, ageOutage);
              var aged := Mark(old(rows), expired, now);
              var kept := Mark(aged, if maxBytes <= 0 then {} else Over(aged, maxBytes), now);
              if maxAge > 0 && AgeStrikes(|Aged(old(rows), now - maxAge)|, ageOutage) then
                rows == aged && objects == old(objects) && failed == Some(Aging)
              else if QuotaFails(aged, maxBytes, queryFails, markFails) then
                rows == aged && objects == old(objects) && failed == Some(Fitting)
              else
                && rows == kept - PurgedIds(kept, refused, outage)
                && objects == old(objects) - KeysOf(kept, DeletedIds(kept, refused, outage))
                && failed == (if !Clean(kept, refused, outage) then Some(Draining) else if totalFails then Some(Totalling) else None)
      ensures failed != Some(Aging) ==> NoneTooOld(rows, maxAge, now)
      ensures OnlyEvictable(old(rows), rows, maxAge, maxBytes, now, ageOutage)
      ensures maxAge > 0 && failed != Some(Aging) ==> Expired(rows, now - maxAge) == {}
      ensures maxBytes > 0 && failed != Some(Aging) && failed != Some(Fitting) ==> Bytes(rows, Live(rows)) <= maxBytes
      ensures failed == None || failed == Some(Totalling) ==> Withdrawn(rows) == {}
    {
      hide Mark, Aged, Expired, Over, Bytes, Ids, PurgedIds, DeletedIds, Clean, Live, Withdrawn, AgeStrikes, QuotaFails, KeysOf,
           OnlyTooOld, NoneTooOld, OnlyEvictable;
      ghost var was := rows;
      AgedOnly(was, maxAge, maxBytes, now, ageOutage);
      var aged, agedBytes, ok := MarkByAge(maxAge, now, ageOutage);
      NoneMarked(was, now);
      if !ok {
        return Some(Aging);
      }
      AgedIsExpired(was, maxAge, now, ageOutage);
      ghost var marked := rows;
      NoneMarked(marked, now);
      var over, overBytes;
      over, overBytes, ok := MarkByQuota(maxBytes, now, queryFails, markFails);
      if !ok {
        NoneExpired(was, maxAge, now);
        return Some(Fitting);
      }
      MaintainedFits(was, maxAge, maxBytes, now, refused, outage);
      MaintainedOnly(was, maxAge, maxBytes, now, ageOutage, refused, outage);
      MaintainedYoung(was, maxAge, maxBytes, now, refused, outage);
      var count, bytes;
      count, bytes, ok := DrainPending(refused, outage);
      return if !ok then Some(Draining) else if totalFails then Some(Totalling) else None;
    }

    /** InvalidateThumbnailsWorker.Work and the sweep's first half: withdraw what no live document holds,
        then drain. held is the versions current for some live document. */
    method Invalidate(version: Option<nat>, held: set<nat>, now: int, markFails: bool, refused: set<string>, outage: Outage)
      returns (ok: bool)
      modifies this
      ensures markFails ==> !ok && rows == old(rows) && objects == old(objects)
      ensures !markFails ==>
                var kept := Mark(old(rows), Stale(old(rows), version, held), now);
                && rows == kept - PurgedIds(kept, refused, outage)
                && objects == old(objects) - KeysOf(kept, DeletedIds(kept, refused, outage))
                && (ok <==> Clean(kept, refused, outage))
      ensures !markFails ==> forall id :: id in old(rows) && old(rows)[id].withdrawn.None? ==>
                var wanted := old(rows)[id].version in held || (version.Some? && old(rows)[id].version != version.value);
                if wanted then id in rows && rows[id] == old(rows)[id]
                else !(id in rows && rows[id].withdrawn.None?) && (ok ==> id !in rows && old(rows)[id].objectKey !in objects)
      ensures UniqueKeys(old(rows)) ==> forall id :: id in rows && rows[id].withdrawn.None? ==>
                (rows[id].objectKey in objects <==> rows[id].objectKey in old(objects))
    {
      if markFails {
        return false;
      }
      ghost var was := rows;
      ghost var kept := Mark(was, Stale(was, version, held), now);
      forall id | id in was && was[id].withdrawn.None?
        ensures var wanted := was[id].version in held || (version.Some? && was[id].version != version.value);
                var left := kept - PurgedIds(kept, refused, outage);
                && (if wanted then id in left && left[id] == was[id] else !(id in left && left[id].withdrawn.None?))
                && (!wanted && Clean(kept, refused, outage) ==>
                      id !in left && was[id].objectKey in KeysOf(kept, DeletedIds(kept, refused, outage)))
      {
        StaleRow(was, version, held, now, refused, outage, id);
      }
      LiveKeysStay(was, kept, refused, outage);
      hide Mark, Stale, PurgedIds, DeletedIds, KeysOf, Clean;
      rows := Mark(rows, Stale(rows, version, held), now);
      var count, bytes;
      count, bytes, ok := DrainPending(refused, outage);
    }

    /** One page of the bucket listing. Only a page with something old asks which keys are known. */
    method SweepPage(page: seq<Object>, cutoff: int, queryFails: bool, refused: set<string>) returns (removed: seq<string>, ok: bool)
      modifies this
      ensures rows == old(rows)
      ensures objects == old(objects) - KeySet(removed)
      ensures queryFails && HasOld(page, cutoff) ==> removed == [] && !ok
      ensures !(queryFails && HasOld(page, cutoff)) ==>
                && removed == UntilRefused(Orphans(rows, page, cutoff), refused)
                && (ok <==> removed == Orphans(rows, page, cutoff))
    {
      var candidates := Orphans(rows, page, cutoff);
      removed := [];
      if !HasOld(page, cutoff) {
        NothingOld(rows, page, cutoff);
        return [], true;
      }
      if queryFails {
        return [], false;
      }
      var i := 0;
      while i < |candidates|
        invariant 0 <= i <= |candidates| && removed == candidates[..i] && rows == old(rows)
        invariant objects == old(objects) - KeySet(removed)
        invariant forall j :: 0 <= j < i ==> candidates[j] !in refused
      {
        var deleted := DeleteObject(candidates[i], refused);
        if !deleted {
          UntilRefusedIs(candidates, refused, i);
          return removed, false;
        }
        removed := removed + [candidates[i]];
        i := i + 1;
      }
      UntilRefusedIs(candidates, refused, i);
      return removed, true;
    }

    /** The bucket, page by page: exactly the old, unreferenced objects go, up to the first that cannot or the
        page whose query fails. pages are those the listing delivers; complete, that they are all. */
    method SweepOrphans(pages: seq<seq<Object>>, complete: bool, cutoff: int, queryFails: Option<nat>, refused: set<string>)
      returns (removed: nat, ok: bool)
      modifies this
      ensures var reach := SweepReach(pages, cutoff, queryFails);
              var orphans := Orphans(rows, Flat(pages[..reach]), cutoff);
              var gone := UntilRefused(orphans, refused);
              && rows == old(rows) && objects == old(objects) - KeySet(gone)
              && removed == |gone| && (ok <==> gone == orphans && reach == |pages| && complete)
    {
      hide Orphans, UntilRefused, HasOld, KeySet, Flat;
      KeysGone(objects, [], []);
      ghost var reached := pages[..SweepReach(pages, cutoff, queryFails)];
      ghost var all := Orphans(rows, Flat(reached), cutoff);
      ghost var gone: seq<string> := [];
      removed := 0;
      var p := 0;
      assert reached[0..] == reached;
      while p < |pages|
        invariant 0 <= p <= |reached| && rows == old(rows) && removed == |gone|
        invariant objects == old(objects) - KeySet(gone)
        invariant all == gone + Orphans(rows, Flat(reached[p..]), cutoff)
        invariant UntilRefused(all, refused) == gone + UntilRefused(Orphans(rows, Flat(reached[p..]), cutoff), refused)
      {
        var swept, done := SweepPage(pages[p], cutoff, queryFails == Some(p), refused);
        if queryFails == Some(p) && HasOld(pages[p], cutoff) {
          NoPages(rows, reached[p..], cutoff, refused, gone);
          return removed, false;
        }
        PageSwept(rows, reached[p..], cutoff, refused, all, gone);
        assert reached[p..][1..] == reached[p + 1..] && reached[p..][0] == pages[p];
        KeysGone(old(objects), gone, swept);
        removed, gone := removed + |swept|, gone + swept;
        if !done {
          return removed, false;
        }
        p := p + 1;
      }
      NoPages(rows, reached[p..], cutoff, refused, gone);
      return removed, complete;
    }

    /** CacheSweepWorker.Work: the orphan pass runs only after a drain that reached every object. */
    method Sweep(held: set<nat>, now: int, markFails: bool, refused: set<string>, outage: Outage,
                 pages: seq<seq<Object>>, complete: bool, cutoff: int, queryFails: Option<nat>) returns (ok: bool)
      modifies this
      ensures markFails ==> !ok && rows == old(rows) && objects == old(objects)
      ensures !markFails ==>
                var kept := Mark(old(rows), Stale(old(rows), None, held), now);
                var reach := SweepReach(pages, cutoff, queryFails);
                var orphans := Orphans(rows, Flat(pages[..reach]), cutoff);
                var left := old(objects) - KeysOf(kept, DeletedIds(kept, refused, outage));
                && rows == kept - PurgedIds(kept, refused, outage)
                && (!Clean(kept, refused, outage) ==> !ok && objects == left)
                && (Clean(kept, refused, outage) ==>
                      && (ok <==> UntilRefused(orphans, refused) == orphans && reach == |pages| && complete)
                      && objects == left - KeySet(UntilRefused(orphans, refused)))
      ensures !markFails ==> forall id :: id in old(rows) && old(rows)[id].withdrawn.None? ==>
                if old(rows)[id].version in held then id in rows && rows[id] == old(rows)[id]
                else !(id in rows && rows[id].withdrawn.None?) && (ok ==> id !in rows && old(rows)[id].objectKey !in objects)
      ensures UniqueKeys(old(rows)) ==> forall id :: id in rows && rows[id].withdrawn.None? ==>
                (rows[id].objectKey in objects <==> rows[id].objectKey in old(objects))
    {
      hide Orphans, UntilRefused, PurgedIds, DeletedIds, Clean, Mark, Stale, SweepReach, Flat, UniqueKeys;
      ok := Invalidate(None, held, now, markFails, refused, outage);
      if ok {
        var removed;
        NamedIsNoOrphan(rows, Flat(pages[..SweepReach(pages, cutoff, queryFails)]), cutoff, refused);
        removed, ok := SweepOrphans(pages, complete, cutoff, queryFails, refused);
      }
    }
  }

  /** A page swept brings the sweep a page on, or to its end. */
  lemma PageSwept(rows: Rows, pages: seq<seq<Object>>, cutoff: int, refused: set<string>, all: seq<string>, gone: seq<string>)
    requires pages != []
    requires all == gone + Orphans(rows, Flat(pages), cutoff)
    requires UntilRefused(all, refused) == gone + UntilRefused(Orphans(rows, Flat(pages), cutoff), refused)
    ensures var page, rest := Orphans(rows, pages[0], cutoff), Orphans(rows, Flat(pages[1..]), cutoff);
            var next := gone + UntilRefused(page, refused);
            if UntilRefused(page, refused) == page then
              all == next + rest && UntilRefused(all, refused) == next + UntilRefused(rest, refused)
            else
              UntilRefused(all, refused) == next && next != all
  {
    hide Orphans, UntilRefused, Flat;
    NextPage(rows, pages, cutoff, refused);
    var page, rest := Orphans(rows, pages[0], cutoff), Orphans(rows, Flat(pages[1..]), cutoff);
    if UntilRefused(page, refused) == page {
      assert gone + (page + rest) == (gone + page) + rest;
      assert gone + (page + UntilRefused(rest, refused)) == (gone + page) + UntilRefused(rest, refused);
    } else {
      assert |gone + UntilRefused(page, refused)| < |all|;
    }
  }

  /** What becomes of a live row: wanted ones are untouched, the others withdrawn and on a clean drain gone with
      their objects. */
  lemma StaleRow(was: Rows, version: Option<nat>, held: set<nat>, now: int, refused: set<string>, outage: Outage, id: nat)
    requires id in was && was[id].withdrawn.None?
    ensures var wanted := was[id].version in held || (version.Some? && was[id].version != version.value);
            var kept := Mark(was, Stale(was, version, held), now);
            var left := kept - PurgedIds(kept, refused, outage);
            && (if wanted then id in left && left[id] == was[id] else !(id in left && left[id].withdrawn.None?))
            && (!wanted && Clean(kept, refused, outage) ==>
                  id !in left && was[id].objectKey in KeysOf(kept, DeletedIds(kept, refused, outage)))
  {
    var kept := Mark(was, Stale(was, version, held), now);
    PurgedIsWithdrawn(kept, refused, outage);
    if Clean(kept, refused, outage) {
      CleanDrainEmpties(kept, refused, outage);
    }
    hide PurgedIds, DeletedIds, Clean;
    assert Key(kept, id) == was[id].objectKey;
  }

  lemma LiveKeysStay(was: Rows, kept: Rows, refused: set<string>, outage: Outage)
    requires kept.Keys == was.Keys && forall id :: id in was ==> kept[id].objectKey == was[id].objectKey
    ensures UniqueKeys(was) ==> forall id :: id in kept && kept[id].withdrawn.None? ==>
              kept[id].objectKey !in KeysOf(kept, DeletedIds(kept, refused, outage))
  {
    hide DeletedIds, KeysOf;
    if UniqueKeys(was) {
      forall id | id in kept && kept[id].withdrawn.None?
        ensures kept[id].objectKey !in KeysOf(kept, DeletedIds(kept, refused, outage))
      {
        DrainSparesLive(kept, refused, outage, id);
      }
    }
  }

  lemma NoPages(rows: Rows, pages: seq<seq<Object>>, cutoff: int, refused: set<string>, gone: seq<string>)
    requires pages == []
    ensures Orphans(rows, Flat(pages), cutoff) == [] == UntilRefused([], refused)
    ensures gone + [] == gone
  {
  }

  /** The rows a stale-version mark withdraws: one version's, or every version's when none is named. */
  function Stale(rows: Rows, version: Option<nat>, held: set<nat>): set<nat> {
    set id | id in rows && (version.None? || rows[id].version == version.value) && rows[id].version !in held
  }

  lemma SameSize(a: set<nat>, b: set<nat>)
    requires a <= b && |a| == |b|
    ensures a == b
  {
    assert |b - a| == |b| - |a|;
    assert b == a + (b - a);
  }

  /** What maintenance leaves, however its drain fares, is within both limits. */
  lemma MaintainedFits(was: Rows, maxAge: int, maxBytes: int, now: int, refused: set<string>, outage: Outage)
    ensures var aged := Mark(was, if maxAge <= 0 then {} else Expired(was, now - maxAge), now);
            var kept := Mark(aged, if maxBytes <= 0 then {} else Over(aged, maxBytes), now);
            var left := kept - PurgedIds(kept, refused, outage);
            && (maxAge > 0 ==> Expired(left, now - maxAge) == {})
            && (maxBytes > 0 ==> Bytes(left, Live(left)) <= maxBytes)
            && (Clean(kept, refused, outage) ==> Withdrawn(left) == {})
  {
    var expired := if maxAge <= 0 then {} else Expired(was, now - maxAge);
    var aged := Mark(was, expired, now);
    var over := if maxBytes <= 0 then {} else Over(aged, maxBytes);
    var kept := Mark(aged, over, now);
    var left := kept - PurgedIds(kept, refused, outage);
    MarkWithdraws(was, expired, now);
    MarkWithdraws(aged, over, now);
    hide PurgedIds, DeletedIds, Clean, Over, Bytes;
    PurgedIsWithdrawn(kept, refused, outage);
    assert Live(left) == Live(kept);
    BytesSame(left, kept, Live(kept));
    if maxBytes > 0 {
      KeptFits(aged, maxBytes);
    }
    if Clean(kept, refused, outage) {
      CleanDrainEmpties(kept, refused, outage);
    }
    if maxAge > 0 {
      forall id | id in Live(left) ensures id !in Expired(left, now - maxAge) {
        assert id in Live(was) && id !in expired;
      }
    }
  }

  /** The outage has not been met in an earlier pass. */
  predicate NotYet(outage: Outage, pass: nat) {
    outage == Healthy || outage.pass >= pass
  }

  /** How far the drain has got when it leaves in this pass. */
  lemma PassEnds(total: nat, f: nat, outage: Outage, pass: nat)
    requires pass * DRAIN_BATCH <= f <= total && NotYet(outage, pass)
    ensures var next := Min(total, (pass + 1) * DRAIN_BATCH);
            var attempted, purged, strikes := Attempted(total, f, outage), Purged(total, f, outage), Strikes(total, f, outage);
            if outage == ListFails(pass) then strikes && attempted == purged == pass * DRAIN_BATCH
            else if outage == PurgeFails(pass) && pass * DRAIN_BATCH < total then
              strikes && attempted == next && purged == pass * DRAIN_BATCH
            else if f < next then !strikes && attempted == purged == next
            else if next == total && total < (pass + 1) * DRAIN_BATCH then f == total && !strikes && attempted == purged == total
            else NotYet(outage, pass + 1)
  {
  }

  /** What a batch purges is withdrawn and still there, so the guard of the purge excludes none of it. */
  lemma BatchWithdrawn(was: Rows, pending: seq<nat>, done: nat, next: nat, refused: set<string>)
    requires pending == Pending(was) && done <= next <= |pending|
    ensures var more := Succeeded(was, pending[done..next], refused);
            var left := was - Ids(pending[..done]);
            left - (more * Withdrawn(left)) == left - more
    ensures |Succeeded(was, pending[done..next], refused)| == 0 ==> Succeeded(was, pending[done..next], refused) == {}
  {
    PendingIsWithdrawn(was);
    var more := Succeeded(was, pending[done..next], refused);
    var left := was - Ids(pending[..done]);
    forall id | id in more && id in left ensures id in Withdrawn(left) {
      assert id in Ids(pending);
    }
  }

  lemma NothingDone(rows: Rows, stock: set<string>, pending: seq<nat>)
    ensures rows - Ids(pending[..0]) == rows
    ensures stock - KeysOf(rows, Ids(pending[..0])) == stock
    ensures Bytes(rows, Ids(pending[..0])) == 0
  {
    assert Ids(pending[..0]) == {};
  }

  /** A batch lists the next pending rows as they were. */
  lemma BatchRows(was: Rows, done: nat, batch: seq<Item>)
    requires done + |batch| <= |Pending(was)|
    requires forall i :: 0 <= i < |batch| ==>
               var id := Pending(was)[done + i];
               id in was && batch[i] == Item(id, was[id].objectKey, was[id].size)
    ensures forall i :: 0 <= i < |batch| ==>
              batch[i] == Item(Pending(was)[done + i], Key(was, Pending(was)[done + i]), Size(was, Pending(was)[done + i]))
  {
  }

  lemma NothingDeleted(rows: Rows, ids: seq<nat>, refused: set<string>, stock: set<string>)
    ensures Succeeded(rows, ids[..0], refused) == {} && Ids([]) == {} && Bytes(rows, {}) == 0
    ensures stock - KeysOf(rows, {}) == stock
  {
  }

  lemma OneMoreDeleted(rows: Rows, done: set<nat>, id: nat, purge: seq<nat>, stock: set<string>)
    requires id !in done && Ids(purge) == done
    ensures Bytes(rows, done + {id}) == Bytes(rows, done) + Size(rows, id)
    ensures stock - KeysOf(rows, done + {id}) == stock - KeysOf(rows, done) - {Key(rows, id)}
    ensures Ids(purge + [id]) == done + {id}
  {
    BytesWithout(rows, done + {id}, id);
    assert done + {id} - {id} == done;
    KeysOfUnion(rows, done, {id}, stock);
  }

  lemma KeysOfUnion(rows: Rows, a: set<nat>, b: set<nat>, stock: set<string>)
    ensures KeysOf(rows, a + b) == KeysOf(rows, a) + KeysOf(rows, b)
    ensures stock - KeysOf(rows, a + b) == stock - KeysOf(rows, a) - KeysOf(rows, b)
  {
  }

  lemma RowsWithout(rows: Rows, a: set<nat>, b: set<nat>)
    ensures rows - (a + b) == rows - a - b
  {
  }

  lemma SucceededSplit(rows: Rows, a: seq<nat>, b: seq<nat>, refused: set<string>)
    ensures Succeeded(rows, a + b, refused) == Succeeded(rows, a, refused) + Succeeded(rows, b, refused)
  {
  }

  /** The rows deleted once a batch is done: those of the batches before it, and its own. */
  lemma BatchSucceeds(was: Rows, pending: seq<nat>, done: nat, next: nat, refused: set<string>)
    requires done <= next <= |pending|
    requires done <= FirstRefused(was, pending, refused)
    requires forall i, j :: 0 <= i < j < |pending| ==> pending[i] != pending[j]
    ensures var more := Succeeded(was, pending[done..next], refused);
            && Succeeded(was, pending[..next], refused) == Ids(pending[..done]) + more
            && Ids(pending[..done]) !! more
  {
    hide FirstRefused, Key;
    SucceededAll(was, pending, done, refused);
    assert pending[..next] == pending[..done] + pending[done..next];
    SucceededSplit(was, pending[..done], pending[done..next], refused);
    forall id | id in pending[..done] ensures id !in pending[done..next] {
      var i :| 0 <= i < done && pending[i] == id;
    }
  }

  lemma BatchRefuses(was: Rows, pending: seq<nat>, done: nat, next: nat, refused: set<string>)
    requires done <= next <= |pending|
    requires done <= FirstRefused(was, pending, refused)
    ensures next <= FirstRefused(was, pending, refused)
       <==> forall i :: 0 <= i < next - done ==> Key(was, pending[done..next][i]) !in refused
  {
    var f := FirstRefused(was, pending, refused);
    if f < next {
      assert pending[done..next][f - done] == pending[f];
    }
  }

  /** What is deleted once the batch is done is what was deleted before and what the batch deletes. */
  lemma BatchDone(was: Rows, pending: seq<nat>, done: nat, next: nat, refused: set<string>, stock: set<string>)
    requires done <= next <= |pending|
    requires done <= FirstRefused(was, pending, refused)
    requires forall i, j :: 0 <= i < j < |pending| ==> pending[i] != pending[j]
    ensures var more := Succeeded(was, pending[done..next], refused);
            var all := Succeeded(was, pending[..next], refused);
            && |all| == done + |more|
            && Bytes(was, all) == Bytes(was, Ids(pending[..done])) + Bytes(was, more)
            && stock - KeysOf(was, all) == stock - KeysOf(was, Ids(pending[..done])) - KeysOf(was, more)
            && was - all == was - Ids(pending[..done]) - more
    ensures next <= FirstRefused(was, pending, refused)
       <==> forall i :: 0 <= i < next - done ==> Key(was, pending[done..next][i]) !in refused
  {
    hide Succeeded, Bytes, KeysOf, Ids, FirstRefused;
    var more := Succeeded(was, pending[done..next], refused);
    BatchSucceeds(was, pending, done, next, refused);
    BatchRefuses(was, pending, done, next, refused);
    DistinctCount(pending, done);
    BytesSplit(was, Ids(pending[..done]), more);
    KeysOfUnion(was, Ids(pending[..done]), more, stock);
    RowsWithout(was, Ids(pending[..done]), more);
  }

  lemma {:induction false} DistinctCount(s: seq<nat>, n: nat)
    requires n <= |s|
    requires forall i, j :: 0 <= i < j < |s| ==> s[i] != s[j]
    ensures |Ids(s[..n])| == n
  {
    if n > 0 {
      DistinctCount(s, n - 1);
      assert s[..n] == s[..n - 1] + [s[n - 1]];
      assert Ids(s[..n]) == Ids(s[..n - 1]) + {s[n - 1]};
    }
  }
}
