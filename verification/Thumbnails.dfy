/** The thumbnail accounting table as a value: order, sums, withdrawal, and exact LRU eviction. */
module Thumbnails {
  import opened Common

  /** withdrawn is pending_delete_at. */
  datatype Row = Row(version: nat, objectKey: string, size: nat, created: int, accessed: int, withdrawn: Option<int>)

  type Rows = map<nat, Row>

  /** object_key is UNIQUE. */
  ghost predicate UniqueKeys(rows: Rows) {
    forall i, j :: i in rows && j in rows && rows[i].objectKey == rows[j].objectKey ==> i == j
  }

  // ---- ORDER BY (time, id) ----

  predicate Before(at: map<nat, int>, i: nat, j: nat)
    requires i in at && j in at
  {
    at[i] < at[j] || (at[i] == at[j] && i < j)
  }

  predicate IsFirst(at: map<nat, int>, ids: set<nat>, m: nat) {
    ids <= at.Keys && m in ids && forall j :: j in ids && j != m ==> Before(at, m, j)
  }

  lemma {:induction false} FirstExists(at: map<nat, int>, ids: set<nat>)
    requires ids != {} && ids <= at.Keys
    ensures exists m :: IsFirst(at, ids, m)
    decreases |ids|
  {
    var x :| x in ids;
    if ids == {x} {
      assert IsFirst(at, ids, x);
    } else {
      assert |ids - {x}| < |ids|;
      assert ids - {x} != {};
      FirstExists(at, ids - {x});
      var m :| IsFirst(at, ids - {x}, m);
      assert forall j :: j in ids ==> j == x || j in ids - {x};
      if Before(at, x, m) {
        assert IsFirst(at, ids, x);
      } else {
        assert IsFirst(at, ids, m);
      }
    }
  }

  function First(at: map<nat, int>): (m: nat)
    requires at.Keys != {}
    ensures m in at && forall j :: j in at && j != m ==> Before(at, m, j)
  {
    FirstExists(at, at.Keys);
    var m :| m in at && IsFirst(at, at.Keys, m);
    m
  }

  function Ordered(at: map<nat, int>): seq<nat>
    decreases |at.Keys|
  {
    if at.Keys == {} then []
    else
      var m := First(at);
      assert (at - {m}).Keys < at.Keys;
      [m] + Ordered(at - {m})
  }

  predicate InOrder(at: map<nat, int>, s: seq<nat>) {
    && (forall i :: 0 <= i < |s| ==> s[i] in at)
    && (forall i, j :: 0 <= i < j < |s| ==> Before(at, s[i], s[j]))
  }

  /** The listing holds each id once, in order. */
  lemma {:induction false} OrderedSorts(at: map<nat, int>)
    ensures forall x :: x in Ordered(at) <==> x in at
    ensures InOrder(at, Ordered(at))
    ensures |Ordered(at)| == |at.Keys|
    decreases |at.Keys|
  {
    if at.Keys != {} {
      var m := First(at);
      var rest := at - {m};
      assert rest.Keys == at.Keys - {m};
      OrderedSorts(rest);
      var s := Ordered(at);
      forall i, j | 0 <= i < j < |s| ensures s[i] in at && s[j] in at && Before(at, s[i], s[j]) {
        assert s[j] in Ordered(rest);
        if i > 0 {
          assert Before(rest, Ordered(rest)[i - 1], Ordered(rest)[j - 1]);
        }
      }
    }
  }

  /** Dropping the oldest n leaves the listing from n on. */
  lemma {:induction false} OrderedSuffix(at: map<nat, int>, n: nat)
    requires n <= |Ordered(at)|
    ensures Ordered(at - Ids(Ordered(at)[..n])) == Ordered(at)[n..]
    decreases n
  {
    if n == 0 {
      assert at - Ids(Ordered(at)[..0]) == at;
    } else {
      var m := First(at);
      var rest := at - {m};
      OrderedSuffix(rest, n - 1);
      assert Ordered(at)[..n] == [m] + Ordered(rest)[..n - 1];
      assert at - Ids(Ordered(at)[..n]) == rest - Ids(Ordered(rest)[..n - 1]);
    }
  }

  function Ids(s: seq<nat>): set<nat> {
    set i | i in s
  }

  // ---- sum(size_bytes) ----

  function Size(rows: Rows, id: nat): nat {
    if id in rows then rows[id].size else 0
  }

  function Bytes(rows: Rows, ids: set<nat>): nat {
    match Least(ids)
    case None => 0
    case Some(x) => Size(rows, x) + Bytes(rows, ids - {x})
  }

  lemma {:induction false} BytesWithout(rows: Rows, ids: set<nat>, id: nat)
    requires id in ids
    ensures Bytes(rows, ids) == Size(rows, id) + Bytes(rows, ids - {id})
    decreases |ids|
  {
    var x := Least(ids).value;
    if x != id {
      BytesWithout(rows, ids - {x}, id);
      BytesWithout(rows, ids - {id}, x);
      assert ids - {x} - {id} == ids - {id} - {x};
    }
  }

  /** The sum of the rows' own sizes. */
  lemma BytesAddUp(rows: Rows, ids: set<nat>, id: nat)
    requires id !in ids
    ensures Bytes(rows, {}) == 0
    ensures Bytes(rows, ids + {id}) == Bytes(rows, ids) + if id in rows then rows[id].size else 0
  {
    BytesWithout(rows, ids + {id}, id);
    assert ids + {id} - {id} == ids;
  }

  lemma {:induction false} BytesSplit(rows: Rows, a: set<nat>, b: set<nat>)
    requires a !! b
    ensures Bytes(rows, a + b) == Bytes(rows, a) + Bytes(rows, b)
    decreases |a|
  {
    if a == {} {
      assert a + b == b;
    } else {
      var x :| x in a;
      BytesWithout(rows, a, x);
      BytesWithout(rows, a + b, x);
      assert (a + b) - {x} == (a - {x}) + b;
      BytesSplit(rows, a - {x}, b);
    }
  }

  lemma BytesGrow(rows: Rows, a: set<nat>, b: set<nat>)
    requires a <= b
    ensures Bytes(rows, a) <= Bytes(rows, b)
  {
    BytesSplit(rows, a, b - a);
    assert a + (b - a) == b;
  }

  lemma {:induction false} BytesSame(rows: Rows, other: Rows, ids: set<nat>)
    requires forall id :: id in ids ==> Size(rows, id) == Size(other, id)
    ensures Bytes(rows, ids) == Bytes(other, ids)
    decreases |ids|
  {
    match Least(ids)
    case None =>
    case Some(x) => BytesSame(rows, other, ids - {x});
  }

  // ---- withdrawal ----

  function Live(rows: Rows): set<nat> {
    set id | id in rows && rows[id].withdrawn.None?
  }

  function Withdrawn(rows: Rows): set<nat> {
    set id | id in rows && rows[id].withdrawn.Some?
  }

  /** COALESCE keeps the time of the first withdrawal. */
  function Mark(rows: Rows, ids: set<nat>, now: int): Rows {
    map id | id in rows ::
      if id in ids && rows[id].withdrawn.None? then rows[id].(withdrawn := Some(now)) else rows[id]
  }

  lemma MarkWithdraws(rows: Rows, ids: set<nat>, now: int)
    ensures Live(Mark(rows, ids, now)) == Live(rows) - ids
    ensures Withdrawn(Mark(rows, ids, now)) == Withdrawn(rows) + (ids * Live(rows))
    ensures forall s :: Bytes(Mark(rows, ids, now), s) == Bytes(rows, s)
  {
    forall s ensures Bytes(Mark(rows, ids, now), s) == Bytes(rows, s) {
      BytesSame(Mark(rows, ids, now), rows, s);
    }
  }

  lemma MarkTwice(rows: Rows, a: set<nat>, b: set<nat>, now: int)
    ensures Mark(Mark(rows, a, now), b, now) == Mark(rows, a + b, now)
  {
  }

  function WithdrawnAt(rows: Rows): map<nat, int> {
    map id | id in rows && rows[id].withdrawn.Some? :: rows[id].withdrawn.value
  }

  /** The drain's work list: every withdrawn row, oldest withdrawal first. */
  function Pending(rows: Rows): (r: seq<nat>)
    ensures forall i :: 0 <= i < |r| ==> r[i] in rows
  {
    OrderedSorts(WithdrawnAt(rows));
    Ordered(WithdrawnAt(rows))
  }

  lemma PendingSuffix(rows: Rows, n: nat)
    requires n <= |Pending(rows)|
    ensures Pending(rows - Ids(Pending(rows)[..n])) == Pending(rows)[n..]
  {
    var gone := Ids(Pending(rows)[..n]);
    OrderedSuffix(WithdrawnAt(rows), n);
    assert WithdrawnAt(rows - gone) == WithdrawnAt(rows) - gone;
  }

  lemma PendingIsWithdrawn(rows: Rows)
    ensures Ids(Pending(rows)) == Withdrawn(rows)
    ensures forall i, j :: 0 <= i < j < |Pending(rows)| ==> Pending(rows)[i] != Pending(rows)[j]
  {
    OrderedSorts(WithdrawnAt(rows));
    var p := Pending(rows);
    forall i, j | 0 <= i < j < |p| ensures p[i] != p[j] {
      assert Before(WithdrawnAt(rows), p[i], p[j]);
    }
  }

  // ---- age ----

  /** Withdrawing what has expired withdraws the live rows created before the cutoff, and nothing else changes. */
  lemma ExpiredAreOld(rows: Rows, cutoff: int, now: int, id: nat)
    requires id in rows
    ensures var kept := Mark(rows, Expired(rows, cutoff), now);
            && kept.Keys == rows.Keys
            && kept[id] == if rows[id].withdrawn.None? && rows[id].created < cutoff then rows[id].(withdrawn := Some(now)) else rows[id]
  {
  }

  function Expired(rows: Rows, cutoff: int): set<nat> {
    set id | id in rows && rows[id].withdrawn.None? && rows[id].created < cutoff
  }

  // ---- quota ----

  function AccessedAt(rows: Rows): map<nat, int> {
    map id | id in rows && rows[id].withdrawn.None? :: rows[id].accessed
  }

  /** The live rows used at least as recently as one of them. */
  function NotOlder(rows: Rows, id: nat): set<nat>
    requires id in Live(rows)
  {
    set j | j in Live(rows) && !Before(AccessedAt(rows), j, id)
  }

  function Running(rows: Rows, id: nat): nat
    requires id in Live(rows)
  {
    Bytes(rows, NotOlder(rows, id))
  }

  /** The rows the quota query returns. */
  function Over(rows: Rows, maxBytes: int): set<nat> {
    set id | id in Live(rows) && Running(rows, id) > maxBytes
  }

  predicate UsedBefore(rows: Rows, i: nat, j: nat)
    requires i in rows && j in rows
  {
    rows[i].accessed < rows[j].accessed || (rows[i].accessed == rows[j].accessed && i < j)
  }

  /** A set of live rows that, with each row, holds every less recently used one. */
  ghost predicate OldestPrefix(rows: Rows, d: set<nat>) {
    && (forall i :: i in d ==> i in rows && rows[i].withdrawn.None?)
    && forall i, j :: i in d && j in rows && rows[j].withdrawn.None? && UsedBefore(rows, j, i) ==> j in d
  }

  lemma OverIsOldest(rows: Rows, maxBytes: int)
    ensures OldestPrefix(rows, Over(rows, maxBytes))
  {
    forall i, j | i in Over(rows, maxBytes) && j in Live(rows) && Before(AccessedAt(rows), j, i) ensures j in Over(rows, maxBytes) {
      assert NotOlder(rows, i) <= NotOlder(rows, j);
      BytesGrow(rows, NotOlder(rows, i), NotOlder(rows, j));
    }
  }

  lemma KeptFits(rows: Rows, maxBytes: nat)
    ensures Bytes(rows, Live(rows) - Over(rows, maxBytes)) <= maxBytes
  {
    var kept := Live(rows) - Over(rows, maxBytes);
    if kept != {} {
      var at := AccessedAt(rows);
      var keptAt := map id | id in at && id in kept :: at[id];
      assert keptAt.Keys == kept;
      var oldest := First(keptAt);
      assert forall j :: j in kept && j != oldest ==> Before(keptAt, oldest, j);
      assert kept <= NotOlder(rows, oldest);
      BytesGrow(rows, kept, NotOlder(rows, oldest));
    }
  }

  /** Exact LRU: the rows returned are the least oldest-prefix of the live rows whose removal makes the rest
      fit.  Any other oldest-prefix that leaves room contains them, so one row fewer is too few. */
  lemma QuotaIsExactLru(rows: Rows, maxBytes: nat, d: set<nat>)
    ensures OldestPrefix(rows, Over(rows, maxBytes))
    ensures Bytes(rows, Live(rows) - Over(rows, maxBytes)) <= maxBytes
    ensures OldestPrefix(rows, d) && Bytes(rows, Live(rows) - d) <= maxBytes ==> Over(rows, maxBytes) <= d
  {
    OverIsOldest(rows, maxBytes);
    KeptFits(rows, maxBytes);
    if OldestPrefix(rows, d) && Bytes(rows, Live(rows) - d) <= maxBytes {
      forall id | id in Over(rows, maxBytes) ensures id in d {
        if id !in d {
          assert NotOlder(rows, id) <= Live(rows) - d by {
            forall j | j in NotOlder(rows, id) ensures j !in d {
              assert j != id ==> Before(AccessedAt(rows), id, j);
            }
          }
          BytesGrow(rows, NotOlder(rows, id), Live(rows) - d);
        }
      }
    }
  }

  /** Giving back the most recently used evicted row overflows the quota again. */
  lemma OneMoreOverflows(rows: Rows, maxBytes: nat, id: nat)
    requires id in Over(rows, maxBytes)
    requires forall j :: j in Over(rows, maxBytes) && j != id ==> Before(AccessedAt(rows), j, id)
    ensures Bytes(rows, Live(rows) - Over(rows, maxBytes) + {id}) > maxBytes
  {
    OverIsOldest(rows, maxBytes);
    var kept := Live(rows) - Over(rows, maxBytes) + {id};
    forall j ensures j in NotOlder(rows, id) <==> j in kept {
      if j in kept && j != id {
        assert !Before(AccessedAt(rows), j, id);
      }
    }
    assert NotOlder(rows, id) == kept;
  }

  /** Age first, then quota: nothing live is past the cutoff and what is live fits. */
  lemma AgeThenQuota(rows: Rows, cutoff: int, maxBytes: nat, now: int)
    ensures var aged := Mark(rows, Expired(rows, cutoff), now);
            var kept := Mark(aged, Over(aged, maxBytes), now);
            && Expired(kept, cutoff) == {}
            && (forall id :: id in kept && kept[id].withdrawn.None? ==> kept[id].created >= cutoff)
            && Bytes(kept, Live(kept)) <= maxBytes
            && Live(kept) == Live(rows) - Expired(rows, cutoff) - Over(aged, maxBytes)
  {
    var aged := Mark(rows, Expired(rows, cutoff), now);
    var kept := Mark(aged, Over(aged, maxBytes), now);
    MarkWithdraws(rows, Expired(rows, cutoff), now);
    MarkWithdraws(aged, Over(aged, maxBytes), now);
    KeptFits(aged, maxBytes);
    forall id ensures id !in Expired(kept, cutoff) {
      assert id in Live(kept) ==> id in Live(rows) && id !in Expired(rows, cutoff);
      assert id in kept ==> kept[id].created == rows[id].created;
    }
  }
}
