/**
 * The tables of internal/store/store.go as values: rows in rowid order, their orderings, and what
 * the statements of the store do to them.
 */
module Rows {
  import opened Records

  /** A row of the entries table. */
  datatype Row = Row(id: int, entry: Entry)

  /** A table is kept in the order of its INTEGER PRIMARY KEY. */
  ghost predicate InIdOrder(rows: seq<Row>) {
    forall i, j :: 0 <= i < j < |rows| ==> rows[i].id < rows[j].id
  }

  function NextId(rows: seq<Row>): int {
    if rows == [] then 1 else rows[|rows| - 1].id + 1
  }

  /** The id SQLite picks for a new row of a table with these ids: one more than the largest there is. */
  method FreshId(ids: set<int>) returns (n: int)
    ensures n > 0 && forall k :: k in ids ==> k < n
  {
    n := 1;
    var left := ids;
    while true
      invariant n > 0
      invariant forall k :: k in ids && k !in left ==> k < n
      decreases left
    {
      if k :| k in left {
        n := if k >= n then k + 1 else n;
        left := left - {k};
      } else {
        return;
      }
    }
  }

  /** INSERT of a batch, one row per entry. */
  function InsertAll(rows: seq<Row>, batch: seq<Entry>): seq<Row>
    decreases |batch|
  {
    if batch == [] then rows
    else InsertAll(rows + [Row(NextId(rows), batch[0])], batch[1..])
  }

  function EntriesOf(rows: seq<Row>): seq<Entry> {
    seq(|rows|, i requires 0 <= i < |rows| => rows[i].entry)
  }

  /** Inserting appends the batch, in its order, behind everything stored. */
  lemma {:induction false} InsertAppends(rows: seq<Row>, batch: seq<Entry>)
    requires InIdOrder(rows)
    ensures InIdOrder(InsertAll(rows, batch)) && rows <= InsertAll(rows, batch)
    ensures EntriesOf(InsertAll(rows, batch)) == EntriesOf(rows) + batch
    decreases |batch|
  {
    if batch == [] {
      assert EntriesOf(rows) + batch == EntriesOf(rows);
    } else {
      var more := rows + [Row(NextId(rows), batch[0])];
      InsertAppends(more, batch[1..]);
      assert EntriesOf(more) == EntriesOf(rows) + [batch[0]];
      assert [batch[0]] + batch[1..] == batch;
    }
  }

  /** DELETE: the rows that stay, in order. */
  function Where(rows: seq<Row>, keep: Row -> bool): seq<Row> {
    if rows == [] then []
    else (if keep(rows[0]) then [rows[0]] else []) + Where(rows[1..], keep)
  }

  lemma {:induction false} WhereMembers(rows: seq<Row>, keep: Row -> bool)
    ensures |Where(rows, keep)| <= |rows|
    ensures forall r :: r in Where(rows, keep) <==> r in rows && keep(r)
  {
    if rows != [] {
      WhereMembers(rows[1..], keep);
      assert rows == [rows[0]] + rows[1..];
    }
  }

  lemma {:induction false} WhereKeepsOrder(rows: seq<Row>, keep: Row -> bool)
    requires InIdOrder(rows)
    ensures InIdOrder(Where(rows, keep))
  {
    if rows != [] {
      WhereKeepsOrder(rows[1..], keep);
      WhereMembers(rows[1..], keep);
      assert forall r :: r in Where(rows[1..], keep) ==> rows[0].id < r.id;
    }
  }

  lemma {:induction false} WhereAll(rows: seq<Row>, keep: Row -> bool)
    requires forall r :: r in rows ==> keep(r)
    ensures Where(rows, keep) == rows
  {
    if rows != [] {
      WhereAll(rows[1..], keep);
      assert [rows[0]] + rows[1..] == rows;
    }
  }

  // --- ORDER BY -----------------------------------------------------------------------------

  /** ORDER BY source_id, ts_ms, id if bySource, else ORDER BY ts_ms, id. */
  predicate Before(a: Row, b: Row, bySource: bool) {
    if bySource && a.entry.sourceId != b.entry.sourceId then a.entry.sourceId < b.entry.sourceId
    else a.entry.timestampMs < b.entry.timestampMs || (a.entry.timestampMs == b.entry.timestampMs && a.id < b.id)
  }

  ghost predicate Sorted(rows: seq<Row>, bySource: bool) {
    forall i, j :: 0 <= i < j < |rows| ==> Before(rows[i], rows[j], bySource)
  }

  function InsertSorted(r: Row, rows: seq<Row>, bySource: bool): seq<Row> {
    if rows == [] || Before(r, rows[0], bySource) then [r] + rows
    else [rows[0]] + InsertSorted(r, rows[1..], bySource)
  }

  function OrderBy(rows: seq<Row>, bySource: bool): seq<Row> {
    if rows == [] then [] else InsertSorted(rows[0], OrderBy(rows[1..], bySource), bySource)
  }

  lemma {:induction false} InsertSortedCorrect(r: Row, rows: seq<Row>, bySource: bool)
    requires Sorted(rows, bySource)
    requires forall x :: x in rows ==> x.id != r.id
    ensures Sorted(InsertSorted(r, rows, bySource), bySource)
    ensures multiset(InsertSorted(r, rows, bySource)) == multiset(rows) + multiset{r}
  {
    if rows == [] || Before(r, rows[0], bySource) {
    } else {
      InsertSortedCorrect(r, rows[1..], bySource);
      var tail := InsertSorted(r, rows[1..], bySource);
      assert rows == [rows[0]] + rows[1..];
      forall x | x in tail ensures Before(rows[0], x, bySource) {
        assert x in multiset(tail);
        assert x == r || x in rows[1..];
      }
    }
  }

  lemma SameElements(a: seq<Row>, b: seq<Row>)
    requires multiset(a) == multiset(b)
    ensures |a| == |b| && forall r :: r in a <==> r in b
  {
    assert |multiset(a)| == |multiset(b)|;
    assert forall r :: r in a <==> r in multiset(a);
  }

  lemma FirstIsSmallest(rows: seq<Row>)
    requires InIdOrder(rows) && rows != []
    ensures forall x :: x in rows[1..] ==> x.id > rows[0].id
    ensures InIdOrder(rows[1..])
  {
  }

  /** The ordered rows are the rows, sorted. */
  lemma {:induction false} OrderByCorrect(rows: seq<Row>, bySource: bool)
    requires InIdOrder(rows)
    ensures Sorted(OrderBy(rows, bySource), bySource)
    ensures multiset(OrderBy(rows, bySource)) == multiset(rows)
    ensures |OrderBy(rows, bySource)| == |rows|
    ensures forall r :: r in OrderBy(rows, bySource) <==> r in rows
  {
    if rows != [] {
      var tail := OrderBy(rows[1..], bySource);
      OrderByCorrect(rows[1..], bySource);
      FirstIsSmallest(rows);
      InsertSortedCorrect(rows[0], tail, bySource);
      assert multiset(rows) == multiset(rows[1..]) + multiset{rows[0]} by { assert rows == [rows[0]] + rows[1..]; }
    }
    SameElements(OrderBy(rows, bySource), rows);
  }

  // --- The statements of Prune --------------------------------------------------------------

  const PRUNE_BATCH := 1000

  function Min(a: int, b: int): int {
    if a < b then a else b
  }

  /** DELETE FROM entries WHERE ts_ms < cutoff */
  function DeleteOld(rows: seq<Row>, cutoff: int): seq<Row> {
    Where(rows, (r: Row) => r.entry.timestampMs >= cutoff)
  }

  /** SELECT id FROM entries ORDER BY ts_ms, id LIMIT PRUNE_BATCH: the rows of those ids. */
  function Oldest(rows: seq<Row>): seq<Row> {
    var ordered := OrderBy(rows, false);
    if |ordered| < PRUNE_BATCH then ordered else ordered[..PRUNE_BATCH]
  }

  function Without(rows: seq<Row>, gone: seq<Row>): seq<Row> {
    if rows == [] then []
    else (if rows[0] in gone then [] else [rows[0]]) + Without(rows[1..], gone)
  }

  /** DELETE FROM entries WHERE id IN (...) */
  function DeleteOldest(rows: seq<Row>): seq<Row> {
    Without(rows, Oldest(rows))
  }

  lemma {:induction false} WithoutMembers(rows: seq<Row>, gone: seq<Row>)
    requires InIdOrder(rows)
    ensures |Without(rows, gone)| <= |rows| && InIdOrder(Without(rows, gone))
    ensures forall r :: r in Without(rows, gone) <==> r in rows && r !in gone
  {
    if rows != [] {
      WithoutMembers(rows[1..], gone);
      assert rows == [rows[0]] + rows[1..];
      assert forall r :: r in Without(rows[1..], gone) ==> rows[0].id < r.id;
    }
  }

  /** Every deleted row comes before every surviving one in (ts_ms, id) order; nothing is added. */
  ghost predicate CutsOldest(before: seq<Row>, after: seq<Row>) {
    && (forall r :: r in after ==> r in before)
    && (forall d, s {:trigger Before(d, s, false)} :: d in before && d !in after && s in after ==> Before(d, s, false))
  }

  /** after is a table made from before by deleting oldest rows. */
  ghost predicate IsCut(before: seq<Row>, after: seq<Row>) {
    InIdOrder(after) && CutsOldest(before, after) && |after| <= |before|
  }

  lemma NoCut(rows: seq<Row>)
    requires InIdOrder(rows)
    ensures IsCut(rows, rows)
  {
  }

  lemma CutTransitive(a: seq<Row>, b: seq<Row>, c: seq<Row>)
    requires IsCut(a, b) && IsCut(b, c)
    ensures IsCut(a, c)
  {
  }

  lemma DeleteOldCuts(rows: seq<Row>, cutoff: int)
    requires InIdOrder(rows)
    ensures IsCut(rows, DeleteOld(rows, cutoff))
    ensures forall r :: r in DeleteOld(rows, cutoff) <==> r in rows && r.entry.timestampMs >= cutoff
  {
    WhereKeepsOrder(rows, (r: Row) => r.entry.timestampMs >= cutoff);
    WhereMembers(rows, (r: Row) => r.entry.timestampMs >= cutoff);
  }

  lemma {:induction false} DistinctCount(rows: seq<Row>)
    requires forall i, j :: 0 <= i < j < |rows| ==> rows[i] != rows[j]
    ensures |set r | r in rows| == |rows|
  {
    if rows != [] {
      DistinctCount(rows[1..]);
      assert (set r | r in rows) == {rows[0]} + (set r | r in rows[1..]);
    }
  }

  /** Deleting rows of the table deletes as many as there are. */
  lemma DeletedCount(rows: seq<Row>, gone: seq<Row>)
    requires InIdOrder(rows)
    requires forall r :: r in gone ==> r in rows
    requires forall i, j :: 0 <= i < j < |gone| ==> gone[i] != gone[j]
    ensures |rows| - |Without(rows, gone)| == |gone|
  {
    var kept := Without(rows, gone);
    WithoutMembers(rows, gone);
    var all, left, out := (set r | r in rows), (set r | r in kept), (set r | r in gone);
    assert |all| == |rows| by { DistinctCount(rows); }
    assert |left| == |kept| by { DistinctCount(kept); }
    assert |out| == |gone| by { DistinctCount(gone); }
    assert left !! out;
    assert all == left + out;
  }

  /** A size round deletes exactly the oldest PRUNE_BATCH rows, or all if there are fewer. */
  lemma DeleteOldestCuts(rows: seq<Row>)
    requires InIdOrder(rows)
    ensures IsCut(rows, DeleteOldest(rows))
    ensures |rows| - |DeleteOldest(rows)| == Min(PRUNE_BATCH, |rows|) == if |rows| < 1000 then |rows| else 1000
    ensures forall d, s :: d in rows && d !in DeleteOldest(rows) && s in DeleteOldest(rows) ==>
      && d.entry.timestampMs <= s.entry.timestampMs && (d.entry.timestampMs == s.entry.timestampMs ==> d.id < s.id)
  {
    var ordered, oldest := OrderBy(rows, false), Oldest(rows);
    OrderByCorrect(rows, false);
    WithoutMembers(rows, oldest);
    forall d, s | d in rows && d !in DeleteOldest(rows) && s in DeleteOldest(rows) ensures Before(d, s, false) {
      assert d in oldest && s !in oldest && s in ordered;
      var i :| 0 <= i < |oldest| && ordered[i] == d;
      var j :| 0 <= j < |ordered| && ordered[j] == s;
      assert forall k :: 0 <= k < |oldest| ==> oldest[k] == ordered[k];
    }
    DeletedCount(rows, oldest);
  }
}
