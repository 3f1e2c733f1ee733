/** What the SQLite data modules under src/db share. A table is a map from
    row id to row together with the order in which the rows were inserted;
    CURRENT_TIMESTAMP is a counter that each write advances, so creation
    stamps grow strictly along the insertion order and ORDER BY created_at is
    that order. */
module Store {

  type Id = string

  /** One optional column write of an UPDATE: `Keep` when the parameter is
      undefined, `Put(v)` when it is given (`v` may itself be a SQL NULL). */
  datatype Patch<T> = Keep | Put(value: T) {
    function Or(current: T): T {
      if Put? then value else current
    }
  }

  /** A boolean stored as 1/0 in an INTEGER column. */
  function StoreBool(b: bool): (n: int)
    ensures n == 0 || n == 1
    ensures LoadBool(n) == b
  {
    if b then 1 else 0
  }

  /** `!!row.column` on the stored integer. */
  function LoadBool(n: int): bool {
    n != 0
  }

  /** `order` names every row exactly once, oldest first: the creation stamps
      increase strictly along it. */
  ghost predicate Chronicle<R>(order: seq<Id>, rows: map<Id, R>, stamp: R -> nat) {
    (forall id :: id in rows <==> id in order)
    && (forall i, j :: 0 <= i < j < |order| ==>
          order[i] in rows && order[j] in rows && stamp(rows[order[i]]) < stamp(rows[order[j]]))
  }

  /** The ids of `ids` whose rows satisfy `keep`, in the order of `ids`: a
      WHERE clause over a scan in insertion order. */
  function Filter<R>(ids: seq<Id>, rows: map<Id, R>, keep: R -> bool): (r: seq<Id>)
    requires forall id <- ids :: id in rows
    ensures forall id :: id in r <==> id in ids && keep(rows[id])
    ensures |r| <= |ids|
  {
    if ids == [] then []
    else (if keep(rows[ids[0]]) then [ids[0]] else []) + Filter(ids[1..], rows, keep)
  }

  /** The rows that `ids` name, in that order. */
  function RowsOf<R>(ids: seq<Id>, rows: map<Id, R>): (r: seq<R>)
    requires forall id <- ids :: id in rows
    ensures |r| == |ids|
    ensures forall i :: 0 <= i < |r| ==> r[i] == rows[ids[i]]
  {
    if ids == [] then [] else [rows[ids[0]]] + RowsOf(ids[1..], rows)
  }

  /** The rows that satisfy `keep`, kept only. */
  function Restrict<R>(rows: map<Id, R>, keep: R -> bool): (r: map<Id, R>)
    ensures forall id :: id in r <==> id in rows && keep(rows[id])
    ensures forall id :: id in r ==> r[id] == rows[id]
  {
    map id | id in rows && keep(rows[id]) :: rows[id]
  }

  /** The keys of the rows that satisfy `keep`. */
  function KeysWhere<R>(rows: map<Id, R>, keep: R -> bool): set<Id> {
    set id | id in rows && keep(rows[id])
  }

  /** The keys of the rows that fail `keep`. */
  function KeysFailing<R>(rows: map<Id, R>, keep: R -> bool): set<Id> {
    set id | id in rows && !keep(rows[id])
  }

  /** The sequence read from the back. */
  function Reversed<T>(s: seq<T>): (r: seq<T>)
    ensures |r| == |s|
    ensures forall k :: 0 <= k < |s| ==> r[k] == s[|s| - 1 - k]
  {
    seq(|s|, k requires 0 <= k < |s| => s[|s| - 1 - k])
  }

  /** Stamps increase strictly along `ids`. */
  ghost predicate Increasing<R>(ids: seq<Id>, rows: map<Id, R>, stamp: R -> nat)
    requires forall id <- ids :: id in rows
  {
    forall i, j :: 0 <= i < j < |ids| ==> stamp(rows[ids[i]]) < stamp(rows[ids[j]])
  }

  /** Strictly increasing stamps name no row twice. */
  lemma IncreasingDistinct<R>(ids: seq<Id>, rows: map<Id, R>, stamp: R -> nat)
    requires forall id <- ids :: id in rows
    requires Increasing(ids, rows, stamp)
    ensures forall i, j :: 0 <= i < j < |ids| ==> ids[i] != ids[j]
  {
  }

  /** A WHERE clause keeps the scan order. */
  lemma {:induction false} FilterIncreasing<R>(ids: seq<Id>, rows: map<Id, R>, keep: R -> bool, stamp: R -> nat)
    requires forall id <- ids :: id in rows
    requires Increasing(ids, rows, stamp)
    ensures Increasing(Filter(ids, rows, keep), rows, stamp)
  {
    if ids != [] {
      var tail := ids[1..];
      TailIncreasing(ids, rows, stamp);
      FilterIncreasing(tail, rows, keep, stamp);
      var t := Filter(tail, rows, keep);
      if keep(rows[ids[0]]) {
        forall id | id in t ensures stamp(rows[ids[0]]) < stamp(rows[id]) {
          HeadFirst(ids, rows, stamp, id);
        }
        ConsIncreasing(ids[0], t, rows, stamp);
      }
    }
  }

  lemma TailIncreasing<R>(ids: seq<Id>, rows: map<Id, R>, stamp: R -> nat)
    requires ids != [] && forall id <- ids :: id in rows
    requires Increasing(ids, rows, stamp)
    ensures Increasing(ids[1..], rows, stamp)
  {
    var tail := ids[1..];
    assert forall i :: 0 <= i < |tail| ==> tail[i] == ids[i + 1];
  }

  lemma HeadFirst<R>(ids: seq<Id>, rows: map<Id, R>, stamp: R -> nat, id: Id)
    requires ids != [] && forall x <- ids :: x in rows
    requires Increasing(ids, rows, stamp)
    requires id in ids[1..]
    ensures stamp(rows[ids[0]]) < stamp(rows[id])
  {
    var k :| 0 <= k < |ids[1..]| && ids[1..][k] == id;
    assert ids[k + 1] == id;
  }

  lemma ConsIncreasing<R>(h: Id, t: seq<Id>, rows: map<Id, R>, stamp: R -> nat)
    requires h in rows && forall id <- t :: id in rows
    requires Increasing(t, rows, stamp)
    requires forall id <- t :: stamp(rows[h]) < stamp(rows[id])
    ensures Increasing([h] + t, rows, stamp)
  {
    var r := [h] + t;
    forall i, j | 0 <= i < j < |r| ensures stamp(rows[r[i]]) < stamp(rows[r[j]]) {
      assert r[j] == t[j - 1];
      if i > 0 {
        assert r[i] == t[i - 1];
      } else {
        assert t[j - 1] in t;
      }
    }
  }

  /** The number of ids a WHERE clause keeps is the number of matching rows. */
  lemma {:induction false} FilterCount<R>(ids: seq<Id>, rows: map<Id, R>, keep: R -> bool)
    requires forall id <- ids :: id in rows
    requires forall i, j :: 0 <= i < j < |ids| ==> ids[i] != ids[j]
    ensures |Filter(ids, rows, keep)| == |set id | id in ids && keep(rows[id])|
  {
    if ids != [] {
      var tail := ids[1..];
      assert forall i :: 0 <= i < |tail| ==> tail[i] == ids[i + 1];
      FilterCount(tail, rows, keep);
      forall k | 0 <= k < |tail| ensures tail[k] != ids[0] {
        assert tail[k] == ids[k + 1];
      }
      CountStep(ids, rows, keep);
    }
  }

  lemma CountStep<R>(ids: seq<Id>, rows: map<Id, R>, keep: R -> bool)
    requires ids != [] && forall id <- ids :: id in rows
    requires ids[0] !in ids[1..]
    ensures |set id | id in ids && keep(rows[id])|
      == (if keep(rows[ids[0]]) then 1 else 0) + |set id | id in ids[1..] && keep(rows[id])|
  {
    var s := set id | id in ids && keep(rows[id]);
    var t := set id | id in ids[1..] && keep(rows[id]);
    assert forall id :: id in ids <==> id == ids[0] || id in ids[1..];
    if keep(rows[ids[0]]) {
      assert s == t + {ids[0]};
    } else {
      assert s == t;
    }
  }

  /** The rows satisfying `keep`, oldest first (ORDER BY created_at ASC). */
  function Oldest<R>(order: seq<Id>, rows: map<Id, R>, keep: R -> bool): seq<R>
    requires forall id <- order :: id in rows
  {
    RowsOf(Filter(order, rows, keep), rows)
  }

  /** The rows satisfying `keep`, newest first (ORDER BY created_at DESC). */
  function Newest<R>(order: seq<Id>, rows: map<Id, R>, keep: R -> bool): seq<R>
    requires forall id <- order :: id in rows
  {
    Reversed(Oldest(order, rows, keep))
  }

  lemma ChronicleCovers<R>(order: seq<Id>, rows: map<Id, R>, stamp: R -> nat)
    requires Chronicle(order, rows, stamp)
    ensures forall id <- order :: id in rows
    ensures Increasing(order, rows, stamp)
  {
  }

  /** `r` holds every row that satisfies `keep` and nothing else. */
  ghost predicate Listed<R>(r: seq<R>, rows: map<Id, R>, keep: R -> bool) {
    (forall i :: 0 <= i < |r| ==> keep(r[i]) && r[i] in rows.Values)
    && (forall id :: id in rows && keep(rows[id]) ==> rows[id] in r)
  }

  /** A query in insertion order returns exactly the matching rows, each
      once, with increasing stamps, as many as there are matching keys. */
  lemma OldestListed<R>(order: seq<Id>, rows: map<Id, R>, keep: R -> bool, stamp: R -> nat)
    requires Chronicle(order, rows, stamp)
    ensures forall id <- order :: id in rows
    ensures var r := Oldest(order, rows, keep);
      Listed(r, rows, keep)
      && (forall i, j :: 0 <= i < j < |r| ==> stamp(r[i]) < stamp(r[j]))
      && |r| == |KeysWhere(rows, keep)|
  {
    ChronicleCovers(order, rows, stamp);
    OldestIsListed(order, rows, keep);
    OldestIncreasing(order, rows, keep, stamp);
    OldestCount(order, rows, keep, stamp);
  }

  lemma OldestIsListed<R>(order: seq<Id>, rows: map<Id, R>, keep: R -> bool)
    requires forall id :: id in rows <==> id in order
    ensures Listed(Oldest(order, rows, keep), rows, keep)
  {
    FilterListed(order, rows, keep);
  }

  lemma OldestIncreasing<R>(order: seq<Id>, rows: map<Id, R>, keep: R -> bool, stamp: R -> nat)
    requires forall id <- order :: id in rows
    requires Increasing(order, rows, stamp)
    ensures var r := Oldest(order, rows, keep); forall i, j :: 0 <= i < j < |r| ==> stamp(r[i]) < stamp(r[j])
  {
    FilterIncreasing(order, rows, keep, stamp);
    RowsOfIncreasing(Filter(order, rows, keep), rows, stamp);
  }

  lemma OldestCount<R>(order: seq<Id>, rows: map<Id, R>, keep: R -> bool, stamp: R -> nat)
    requires Chronicle(order, rows, stamp)
    ensures forall id <- order :: id in rows
    ensures |Oldest(order, rows, keep)| == |KeysWhere(rows, keep)|
  {
    ChronicleCovers(order, rows, stamp);
    IncreasingDistinct(order, rows, stamp);
    FilterCount(order, rows, keep);
    assert (set id | id in order && keep(rows[id])) == KeysWhere(rows, keep);
  }

  lemma FilterListed<R>(order: seq<Id>, rows: map<Id, R>, keep: R -> bool)
    requires forall id :: id in rows <==> id in order
    ensures Listed(RowsOf(Filter(order, rows, keep), rows), rows, keep)
  {
    var ids := Filter(order, rows, keep);
    var r := RowsOf(ids, rows);
    forall i | 0 <= i < |r| ensures keep(r[i]) && r[i] in rows.Values {
      assert ids[i] in ids;
    }
    forall id | id in rows && keep(rows[id]) ensures rows[id] in r {
      var k :| 0 <= k < |ids| && ids[k] == id;
      assert r[k] == rows[id];
    }
  }

  lemma RowsOfIncreasing<R>(ids: seq<Id>, rows: map<Id, R>, stamp: R -> nat)
    requires forall id <- ids :: id in rows
    requires Increasing(ids, rows, stamp)
    ensures var r := RowsOf(ids, rows); forall i, j :: 0 <= i < j < |r| ==> stamp(r[i]) < stamp(r[j])
  {
  }

  /** The same query newest first: the same rows with decreasing stamps. */
  lemma NewestListed<R>(order: seq<Id>, rows: map<Id, R>, keep: R -> bool, stamp: R -> nat)
    requires Chronicle(order, rows, stamp)
    ensures forall id <- order :: id in rows
    ensures var r := Newest(order, rows, keep);
      Listed(r, rows, keep)
      && (forall i, j :: 0 <= i < j < |r| ==> stamp(r[i]) > stamp(r[j]))
      && |r| == |KeysWhere(rows, keep)|
  {
    OldestListed(order, rows, keep, stamp);
    var s := Oldest(order, rows, keep);
    ListedReversed(s, rows, keep);
    ReversedDecreasing(s, stamp);
  }

  lemma ListedReversed<R>(s: seq<R>, rows: map<Id, R>, keep: R -> bool)
    requires Listed(s, rows, keep)
    ensures Listed(Reversed(s), rows, keep)
  {
    var r := Reversed(s);
    forall i | 0 <= i < |r| ensures keep(r[i]) && r[i] in rows.Values {
      assert r[i] == s[|s| - 1 - i];
    }
    forall id | id in rows && keep(rows[id]) ensures rows[id] in r {
      var k :| 0 <= k < |s| && s[k] == rows[id];
      assert r[|s| - 1 - k] == rows[id];
    }
  }

  lemma ReversedDecreasing<R>(s: seq<R>, stamp: R -> nat)
    requires forall i, j :: 0 <= i < j < |s| ==> stamp(s[i]) < stamp(s[j])
    ensures var r := Reversed(s); forall i, j :: 0 <= i < j < |r| ==> stamp(r[i]) > stamp(r[j])
  {
    var r := Reversed(s);
    forall i, j | 0 <= i < j < |r| ensures stamp(r[i]) > stamp(r[j]) {
      assert r[i] == s[|s| - 1 - i] && r[j] == s[|s| - 1 - j];
    }
  }

  /** Inserting a row under a new id with a newer stamp than every row. */
  lemma ChronicleInsert<R>(order: seq<Id>, rows: map<Id, R>, stamp: R -> nat, id: Id, row: R)
    requires Chronicle(order, rows, stamp)
    requires id !in rows
    requires forall k :: k in rows ==> stamp(rows[k]) < stamp(row)
    ensures Chronicle(order + [id], rows[id := row], stamp)
  {
    var o, m := order + [id], rows[id := row];
    forall i, j | 0 <= i < j < |o| ensures o[i] in m && o[j] in m && stamp(m[o[i]]) < stamp(m[o[j]]) {
      assert o[i] == order[i];
      assert order[i] in order;
      assert o[i] != id;
      if j < |order| {
        assert o[j] == order[j];
      }
    }
  }

  /** Rewriting rows in place without touching their stamps. */
  lemma ChronicleRestamp<R>(order: seq<Id>, rows: map<Id, R>, rows': map<Id, R>, stamp: R -> nat)
    requires Chronicle(order, rows, stamp)
    requires rows'.Keys == rows.Keys
    requires forall k :: k in rows ==> stamp(rows'[k]) == stamp(rows[k])
    ensures Chronicle(order, rows', stamp)
  {
  }

  /** Deleting the rows that fail `keep` and the ids that named them. */
  lemma ChronicleRestrict<R>(order: seq<Id>, rows: map<Id, R>, keep: R -> bool, stamp: R -> nat)
    requires Chronicle(order, rows, stamp)
    ensures forall id <- order :: id in rows
    ensures Chronicle(Filter(order, rows, keep), Restrict(rows, keep), stamp)
  {
    ChronicleCovers(order, rows, stamp);
    FilterIncreasing(order, rows, keep, stamp);
  }

  /** Keeping the rows that pass `keep` takes away exactly the rows that
      fail it, so some row went if and only if some row failed. */
  lemma RemovedCount<R>(rows: map<Id, R>, keep: R -> bool)
    ensures |Restrict(rows, keep).Keys| == |rows.Keys| - |KeysFailing(rows, keep)|
    ensures |Restrict(rows, keep).Keys| < |rows.Keys| <==> exists id :: id in rows && !keep(rows[id])
  {
    var kept := Restrict(rows, keep).Keys;
    var gone := KeysFailing(rows, keep);
    assert rows.Keys == kept + gone;
    assert kept * gone == {};
    if exists id :: id in rows && !keep(rows[id]) {
      var id :| id in rows && !keep(rows[id]);
      assert id in gone;
    }
  }

  /** `DELETE FROM t WHERE NOT keep`: the rows that pass `keep` stay, in
      their order and unchanged, and `removed` is how many went (the
      statement's `changes`). */
  method DeleteWhere<R>(order: seq<Id>, rows: map<Id, R>, keep: R -> bool, ghost stamp: R -> nat)
    returns (order': seq<Id>, rows': map<Id, R>, removed: nat)
    requires Chronicle(order, rows, stamp)
    ensures Chronicle(order', rows', stamp)
    ensures forall k :: k in rows' <==> k in rows && keep(rows[k])
    ensures forall k :: k in rows' ==> rows'[k] == rows[k]
    ensures removed == |KeysFailing(rows, keep)|
    ensures removed > 0 <==> exists k :: k in rows && !keep(rows[k])
  {
    ChronicleRestrict(order, rows, keep, stamp);
    RemovedCount(rows, keep);
    order', rows' := Filter(order, rows, keep), Restrict(rows, keep);
    removed := |rows.Keys| - |rows'.Keys|;
  }

  /** `UPDATE t SET … WHERE pick`: every row that passes `pick` is replaced
      by `change` of it, every other row stays, and `changed` is how many
      rows were picked. A change that keeps creation stamps keeps the
      chronicle. */
  method UpdateWhere<R>(order: seq<Id>, rows: map<Id, R>, pick: R -> bool, change: R -> R, ghost stamp: R -> nat)
    returns (rows': map<Id, R>, changed: nat)
    requires Chronicle(order, rows, stamp)
    requires forall r :: stamp(change(r)) == stamp(r)
    ensures Chronicle(order, rows', stamp)
    ensures rows'.Keys == rows.Keys
    ensures forall k :: k in rows ==> rows'[k] == if pick(rows[k]) then change(rows[k]) else rows[k]
    ensures changed == |KeysWhere(rows, pick)|
  {
    rows' := map k | k in rows :: if pick(rows[k]) then change(rows[k]) else rows[k];
    ChronicleRestamp(order, rows, rows', stamp);
    changed := |KeysWhere(rows, pick)|;
  }
}
