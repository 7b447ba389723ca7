/** How Export groups an ordered stream of rows, and what the groups have to do with the filter. */
module Sections {
  import opened Records
  import opened Rows

  /** Consecutive rows of one source. */
  datatype Section = Section(sourceId: int, rows: seq<Row>)

  /** The sections in the order their first rows come. */
  function Group(q: seq<Row>): seq<Section> {
    if q == [] then []
    else
      var ss, r := Group(q[..|q| - 1]), q[|q| - 1];
      if ss != [] && ss[|ss| - 1].sourceId == r.entry.sourceId then
        ss[..|ss| - 1] + [Section(r.entry.sourceId, ss[|ss| - 1].rows + [r])]
      else ss + [Section(r.entry.sourceId, [r])]
  }

  function Flatten(ss: seq<Section>): seq<Row> {
    if ss == [] then [] else Flatten(ss[..|ss| - 1]) + ss[|ss| - 1].rows
  }

  function RowsOf(q: seq<Row>, sourceId: int): seq<Row> {
    Where(q, (r: Row) => r.entry.sourceId == sourceId)
  }

  ghost predicate BySource(q: seq<Row>) {
    forall i, j :: 0 <= i < j < |q| ==> q[i].entry.sourceId <= q[j].entry.sourceId
  }

  /** Every section holds rows of its source only, at least one, and the sections are in strict order. */
  ghost predicate Proper(ss: seq<Section>) {
    && (forall k :: 0 <= k < |ss| ==> ss[k].rows != [])
    && (forall k, r :: 0 <= k < |ss| && r in ss[k].rows ==> r.entry.sourceId == ss[k].sourceId)
    && (forall j, k :: 0 <= j < k < |ss| ==> ss[j].sourceId < ss[k].sourceId)
  }

  lemma FlattenLast(ss: seq<Section>, s: Section)
    ensures Flatten(ss + [s]) == Flatten(ss) + s.rows
  {
    assert (ss + [s])[..|ss|] == ss;
  }

  lemma FlattenExtended(ss: seq<Section>, r: Row)
    requires ss != []
    ensures Flatten(ss[..|ss| - 1] + [Section(r.entry.sourceId, ss[|ss| - 1].rows + [r])]) == Flatten(ss) + [r]
  {
    var init, rows := ss[..|ss| - 1], ss[|ss| - 1].rows;
    FlattenLast(init, Section(r.entry.sourceId, rows + [r]));
    assert Flatten(init) + (rows + [r]) == Flatten(init) + rows + [r];
  }

  lemma {:induction false} GroupFlattens(q: seq<Row>)
    ensures Flatten(Group(q)) == q
    ensures q != [] ==> Group(q) != [] && Group(q)[|Group(q)| - 1].sourceId == q[|q| - 1].entry.sourceId
  {
    if q != [] {
      var init, r := q[..|q| - 1], q[|q| - 1];
      var ss := Group(init);
      assert Flatten(ss) == init by { GroupFlattens(init); }
      assert q == init + [r];
      if ss != [] && ss[|ss| - 1].sourceId == r.entry.sourceId {
        FlattenExtended(ss, r);
      } else {
        FlattenLast(ss, Section(r.entry.sourceId, [r]));
      }
    }
  }

  lemma ProperExtended(ss: seq<Section>, r: Row)
    requires Proper(ss) && ss != [] && ss[|ss| - 1].sourceId == r.entry.sourceId
    ensures Proper(ss[..|ss| - 1] + [Section(r.entry.sourceId, ss[|ss| - 1].rows + [r])])
  {
  }

  lemma ProperAppended(ss: seq<Section>, r: Row)
    requires Proper(ss) && (ss != [] ==> ss[|ss| - 1].sourceId < r.entry.sourceId)
    ensures Proper(ss + [Section(r.entry.sourceId, [r])])
  {
  }

  lemma {:induction false} GroupProper(q: seq<Row>)
    requires BySource(q)
    ensures Proper(Group(q))
  {
    if q != [] {
      var init, r := q[..|q| - 1], q[|q| - 1];
      GroupProper(init);
      GroupFlattens(init);
      var ss := Group(init);
      if ss != [] && ss[|ss| - 1].sourceId == r.entry.sourceId {
        ProperExtended(ss, r);
      } else {
        assert init != [] ==> init[|init| - 1].entry.sourceId <= r.entry.sourceId;
        ProperAppended(ss, r);
      }
    }
  }

  lemma {:induction false} RowsOfAppend(a: seq<Row>, b: seq<Row>, sourceId: int)
    ensures RowsOf(a + b, sourceId) == RowsOf(a, sourceId) + RowsOf(b, sourceId)
  {
    if a == [] {
      assert a + b == b;
    } else {
      assert (a + b)[1..] == a[1..] + b;
      RowsOfAppend(a[1..], b, sourceId);
    }
  }

  lemma {:induction false} RowsOfUniform(rows: seq<Row>, owner: int, sourceId: int)
    requires forall r :: r in rows ==> r.entry.sourceId == owner
    ensures RowsOf(rows, sourceId) == if owner == sourceId then rows else []
  {
    if rows != [] {
      RowsOfUniform(rows[1..], owner, sourceId);
      assert [rows[0]] + rows[1..] == rows;
    }
  }

  /** The rows of a source in a flattened list are those of its section, if it has one. */
  lemma {:induction false} FlattenRowsOf(ss: seq<Section>, sourceId: int)
    requires Proper(ss)
    ensures forall k :: 0 <= k < |ss| && ss[k].sourceId == sourceId ==> RowsOf(Flatten(ss), sourceId) == ss[k].rows
    ensures (forall k :: 0 <= k < |ss| ==> ss[k].sourceId != sourceId) ==> RowsOf(Flatten(ss), sourceId) == []
  {
    if ss != [] {
      var init, last := ss[..|ss| - 1], ss[|ss| - 1];
      FlattenRowsOf(init, sourceId);
      RowsOfAppend(Flatten(init), last.rows, sourceId);
      RowsOfUniform(last.rows, last.sourceId, sourceId);
      forall k | 0 <= k < |ss| && ss[k].sourceId == sourceId ensures RowsOf(Flatten(ss), sourceId) == ss[k].rows {
        if k < |init| {
          assert init[k] == ss[k];
        }
      }
    }
  }

  lemma SortedBySource(q: seq<Row>)
    requires Sorted(q, true)
    ensures BySource(q)
  {
    assert forall i, j :: 0 <= i < j < |q| ==> Before(q[i], q[j], true);
  }

  lemma SectionHoldsItsRows(q: seq<Row>, k: nat)
    requires BySource(q) && k < |Group(q)|
    ensures Group(q)[k].rows == RowsOf(q, Group(q)[k].sourceId)
  {
    GroupFlattens(q);
    GroupProper(q);
    FlattenRowsOf(Group(q), Group(q)[k].sourceId);
  }

  lemma EveryRowHasASection(q: seq<Row>, r: Row)
    requires BySource(q) && r in q
    ensures exists k :: 0 <= k < |Group(q)| && Group(q)[k].sourceId == r.entry.sourceId
  {
    GroupFlattens(q);
    GroupProper(q);
    FlattenRowsOf(Group(q), r.entry.sourceId);
    WhereMembers(q, (x: Row) => x.entry.sourceId == r.entry.sourceId);
    assert r in RowsOf(q, r.entry.sourceId);
  }

  function First(s: Section): Row {
    if s.rows == [] then Row(0, Entry(0, 0, 0, [], [], 0)) else s.rows[0]
  }

  function Last(s: Section): Row {
    if s.rows == [] then Row(0, Entry(0, 0, 0, [], [], 0)) else s.rows[|s.rows| - 1]
  }

  lemma {:induction false} WhereSorted(q: seq<Row>, keep: Row -> bool)
    requires Sorted(q, true)
    ensures Sorted(Where(q, keep), true)
  {
    if q != [] {
      WhereSorted(q[1..], keep);
      WhereMembers(q[1..], keep);
      assert forall r :: r in Where(q[1..], keep) ==> Before(q[0], r, true);
    }
  }

  lemma EndsAreExtreme(rows: seq<Row>, sourceId: int, r: Row)
    requires Sorted(rows, true) && r in rows
    requires forall x :: x in rows ==> x.entry.sourceId == sourceId
    ensures rows[0].entry.timestampMs <= r.entry.timestampMs <= rows[|rows| - 1].entry.timestampMs
  {
    var i :| 0 <= i < |rows| && rows[i] == r;
    assert i > 0 ==> Before(rows[0], rows[i], true);
    assert i < |rows| - 1 ==> Before(rows[i], rows[|rows| - 1], true);
  }

  lemma SectionSpansItsTimes(q: seq<Row>, k: nat, r: Row)
    requires Sorted(q, true) && k < |Group(q)| && r in Group(q)[k].rows
    ensures First(Group(q)[k]).entry.timestampMs <= r.entry.timestampMs <= Last(Group(q)[k]).entry.timestampMs
  {
    var s := Group(q)[k];
    SortedBySource(q);
    SectionHoldsItsRows(q, k);
    WhereSorted(q, (x: Row) => x.entry.sourceId == s.sourceId);
    WhereMembers(q, (x: Row) => x.entry.sourceId == s.sourceId);
    EndsAreExtreme(s.rows, s.sourceId, r);
  }

  /**
   * Over a stream ordered as EachEntry orders it, the sections are a faithful partition: they are
   * the stream cut into pieces, one per source that occurs, each holding exactly the rows of its
   * source, with the earliest first and the latest last.
   */
  lemma {:induction false} GroupIsPartition(q: seq<Row>)
    requires Sorted(q, true)
    ensures Flatten(Group(q)) == q && Proper(Group(q))
    ensures forall k :: 0 <= k < |Group(q)| ==> Group(q)[k].rows == RowsOf(q, Group(q)[k].sourceId)
    ensures forall r :: r in q ==> exists k :: 0 <= k < |Group(q)| && Group(q)[k].sourceId == r.entry.sourceId
    ensures forall k, r :: 0 <= k < |Group(q)| && r in Group(q)[k].rows ==>
      First(Group(q)[k]).entry.timestampMs <= r.entry.timestampMs <= Last(Group(q)[k]).entry.timestampMs
  {
    SortedBySource(q);
    GroupFlattens(q);
    GroupProper(q);
    forall k | 0 <= k < |Group(q)| ensures Group(q)[k].rows == RowsOf(q, Group(q)[k].sourceId) {
      SectionHoldsItsRows(q, k);
    }
    forall r | r in q ensures exists k :: 0 <= k < |Group(q)| && Group(q)[k].sourceId == r.entry.sourceId {
      EveryRowHasASection(q, r);
    }
    forall k, r | 0 <= k < |Group(q)| && r in Group(q)[k].rows
      ensures First(Group(q)[k]).entry.timestampMs <= r.entry.timestampMs <= Last(Group(q)[k]).entry.timestampMs
    {
      SectionSpansItsTimes(q, k, r);
    }
  }
}
