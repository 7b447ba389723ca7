/** internal/store/store.go: the tables, UpsertSource, InsertEntries, Prune and the filtered read. */
module Store {
  import opened Bytes
  import opened Wrappers
  import opened Records
  import opened Rows
  import opened Subsequences

  // --- Sources ------------------------------------------------------------------------------

  type SourceTable = map<int, Source>

  predicate SameIdentity(a: Source, b: Source) {
    a.component == b.component && a.instance == b.instance
  }

  /** UNIQUE (component, instance) */
  ghost predicate Unique(t: SourceTable) {
    forall i, j :: i in t && j in t && SameIdentity(t[i], t[j]) ==> i == j
  }

  /** What UpsertSource may do: announce a new version of a known source, or add a source under a new id. */
  ghost predicate Upserted(t: SourceTable, src: Source, t': SourceTable, id: int) {
    && t' == t[id := src]
    && (id in t ==> SameIdentity(t[id], src))
    && (id !in t ==> forall k :: k in t ==> !SameIdentity(t[k], src))
  }

  /** No id ever changes hands: the rows of t are still there in t', at most with another version. */
  ghost predicate KeepsIdentities(t: SourceTable, t': SourceTable) {
    forall k :: k in t ==> k in t' && SameIdentity(t[k], t'[k])
  }

  lemma UpsertKeepsIdentities(t: SourceTable, src: Source, t': SourceTable, id: int)
    requires Unique(t) && Upserted(t, src, t', id)
    ensures Unique(t') && KeepsIdentities(t, t')
  {
  }

  /** The id UpsertSource returns depends on component and instance only, and stays the same for good. */
  lemma UpsertAgain(t: SourceTable, src: Source, t': SourceTable, id: int, version: bytes, u: SourceTable, u': SourceTable, id': int)
    requires Unique(t) && Upserted(t, src, t', id)
    requires KeepsIdentities(t', u) && Unique(u)
    requires Upserted(u, src.(version := version), u', id')
    ensures id' == id
  {
    assert SameIdentity(u[id], src);
  }

  // --- Filter -------------------------------------------------------------------------------

  /** Zero values mean "no restriction". */
  datatype Filter = Filter(sinceMs: int, untilMs: int, components: seq<bytes>, excludeCategories: seq<int>)

  /** A condition of the WHERE clause with its arguments. */
  datatype Cond = TsAtLeast(ms: int) | TsAtMost(ms: int) | ComponentIn(names: seq<bytes>) | CategoryNotIn(categories: seq<int>)

  predicate Holds(c: Cond, e: Entry, src: Source) {
    match c
    case TsAtLeast(ms) => e.timestampMs >= ms
    case TsAtMost(ms) => e.timestampMs <= ms
    case ComponentIn(names) => src.component in names
    case CategoryNotIn(categories) => e.category !in categories
  }

  /** What a filter selects. */
  predicate Matches(f: Filter, e: Entry, src: Source) {
    && (f.sinceMs > 0 ==> f.sinceMs <= e.timestampMs)
    && (f.untilMs > 0 ==> e.timestampMs <= f.untilMs)
    && (f.components != [] ==> src.component in f.components)
    && e.category !in f.excludeCategories
  }

  /** Filter.where: the conditions joined with AND select exactly what the filter means. */
  method WhereConds(f: Filter) returns (conds: seq<Cond>)
    ensures forall e: Entry, src: Source ::
      (forall i :: 0 <= i < |conds| ==> Holds(conds[i], e, src)) <==> Matches(f, e, src)
  {
    conds := [];
    if f.sinceMs > 0 {
      conds := conds + [TsAtLeast(f.sinceMs)];
    }
    if f.untilMs > 0 {
      conds := conds + [TsAtMost(f.untilMs)];
    }
    if |f.components| > 0 {
      conds := conds + [ComponentIn(f.components)];
    }
    if |f.excludeCategories| > 0 {
      conds := conds + [CategoryNotIn(f.excludeCategories)];
    }
    forall e: Entry, src: Source
      ensures (forall i :: 0 <= i < |conds| ==> Holds(conds[i], e, src)) <==> Matches(f, e, src)
    {
      assert f.sinceMs > 0 ==> TsAtLeast(f.sinceMs) in conds;
      assert f.untilMs > 0 ==> TsAtMost(f.untilMs) in conds;
      assert |f.components| > 0 ==> ComponentIn(f.components) in conds;
      assert |f.excludeCategories| > 0 ==> CategoryNotIn(f.excludeCategories) in conds;
    }
  }

  predicate Selected(r: Row, sources: SourceTable, f: Filter) {
    r.entry.sourceId in sources && Matches(f, r.entry, sources[r.entry.sourceId])
  }

  /** The rows EachEntry visits, in its order: JOIN sources, WHERE filter, ORDER BY source_id, ts_ms, id. */
  function Query(rows: seq<Row>, sources: SourceTable, f: Filter): seq<Row> {
    OrderBy(Rows.Where(rows, (r: Row) => Selected(r, sources, f)), true)
  }

  /** The stream is ordered and holds each selected row once and no other. */
  lemma QueryCorrect(rows: seq<Row>, sources: SourceTable, f: Filter)
    requires InIdOrder(rows)
    ensures var q := Query(rows, sources, f);
      && Sorted(q, true)
      && (forall r :: r in q <==> r in rows && Selected(r, sources, f))
      && (forall i, j :: 0 <= i < j < |q| ==> q[i] != q[j])
      && (forall i, j :: 0 <= i < j < |q| ==>
            q[i].entry.sourceId < q[j].entry.sourceId
            || (q[i].entry.sourceId == q[j].entry.sourceId && q[i].entry.timestampMs < q[j].entry.timestampMs)
            || (q[i].entry.sourceId == q[j].entry.sourceId && q[i].entry.timestampMs == q[j].entry.timestampMs && q[i].id < q[j].id))
      && (forall r :: r in q <==>
            && r in rows && r.entry.sourceId in sources
            && (f.sinceMs > 0 ==> r.entry.timestampMs >= f.sinceMs)
            && (f.untilMs > 0 ==> r.entry.timestampMs <= f.untilMs)
            && (f.components != [] ==> sources[r.entry.sourceId].component in f.components)
            && r.entry.category !in f.excludeCategories)
  {
    var keep := (r: Row) => Selected(r, sources, f);
    WhereKeepsOrder(rows, keep);
    WhereMembers(rows, keep);
    OrderByCorrect(Rows.Where(rows, keep), true);
  }

  // --- Prune --------------------------------------------------------------------------------

  /** The bytes the data occupies, an arbitrary function of what is stored. */
  type UsedBytes = (seq<Row>, seq<Gap>) -> int

  /** The data in left was over the limit, and exactly its oldest PRUNE_BATCH rows, or all there were, are gone. */
  ghost predicate OneRound(left: seq<Row>, maxBytes: int, used: UsedBytes, gaps: seq<Gap>, after: seq<Row>) {
    used(left, gaps) > maxBytes && IsCut(left, after) && |left| - |after| == Min(PRUNE_BATCH, |left|)
  }

  /** n rounds of the size loop, each because the data was over the limit, turned rows into after. */
  ghost predicate Rounds(rows: seq<Row>, maxBytes: int, used: UsedBytes, gaps: seq<Gap>, n: nat, after: seq<Row>)
    decreases n
  {
    if n == 0 then after == rows
    else exists left: seq<Row> ::
           Rounds(rows, maxBytes, used, gaps, n - 1, left) && OneRound(left, maxBytes, used, gaps, after)
  }

  lemma {:induction false} RoundsCut(
    rows: seq<Row>, maxBytes: int, used: UsedBytes, gaps: seq<Gap>, n: nat, after: seq<Row>)
    requires InIdOrder(rows) && Rounds(rows, maxBytes, used, gaps, n, after)
    ensures IsCut(rows, after)
    ensures n > 0 ==> used(rows, gaps) > maxBytes && (rows != [] ==> |after| < |rows|)
    decreases n
  {
    if n == 0 {
      NoCut(rows);
    } else {
      var left: seq<Row> :| Rounds(rows, maxBytes, used, gaps, n - 1, left) && OneRound(left, maxBytes, used, gaps, after);
      RoundsCut(rows, maxBytes, used, gaps, n - 1, left);
      CutTransitive(rows, left, after);
    }
  }

  /** One more round. */
  lemma RoundDone(aged: seq<Row>, maxBytes: int, used: UsedBytes, gaps: seq<Gap>, n: nat, left: seq<Row>)
    requires Rounds(aged, maxBytes, used, gaps, n, left) && IsCut(aged, left) && used(left, gaps) > maxBytes
    ensures Rounds(aged, maxBytes, used, gaps, n + 1, DeleteOldest(left)) && IsCut(aged, DeleteOldest(left))
    ensures |DeleteOldest(left)| < |left| || DeleteOldest(left) == left == []
  {
    DeleteOldestCuts(left);
    CutTransitive(aged, left, DeleteOldest(left));
    assert OneRound(left, maxBytes, used, gaps, DeleteOldest(left));
  }

  function GapsSince(gaps: seq<Gap>, cutoff: int): (kept: seq<Gap>)
    ensures forall g :: g in kept <==> g in gaps && g.toMs >= cutoff
  {
    if gaps == [] then []
    else (if gaps[0].toMs >= cutoff then [gaps[0]] else []) + GapsSince(gaps[1..], cutoff)
  }

  lemma {:induction false} GapsSinceFilters(gaps: seq<Gap>, cutoff: int)
    ensures GapsSince(gaps, cutoff) == Filtered(gaps, (g: Gap) => g.toMs >= cutoff)
  {
    if gaps != [] {
      GapsSinceFilters(gaps[1..], cutoff);
    }
  }

  /** Each gap that ends at the cutoff or later stays, once and in order. */
  lemma GapsSincePositions(gaps: seq<Gap>, cutoff: int) returns (at: seq<nat>)
    ensures Picks(at, GapsSince(gaps, cutoff), gaps)
    ensures IsExactly(at, |gaps|, (p: nat) => p < |gaps| && gaps[p].toMs >= cutoff)
  {
    GapsSinceFilters(gaps, cutoff);
    at := FilteredPositions(gaps, (g: Gap) => g.toMs >= cutoff);
  }

  lemma {:induction false} GapsSinceAll(gaps: seq<Gap>, cutoff: int)
    requires forall g :: g in gaps ==> g.toMs >= cutoff
    ensures GapsSince(gaps, cutoff) == gaps
  {
    if gaps != [] {
      GapsSinceAll(gaps[1..], cutoff);
      assert [gaps[0]] + gaps[1..] == gaps;
    }
  }

  datatype PruneResult = PruneResult(byAge: int, bySize: int)

  /** A Prune call that met no error turned the tables before into the tables after. */
  ghost predicate Pruned(
    before: seq<Row>, gaps: seq<Gap>, cutoff: int, maxBytes: int, used: UsedBytes,
    after: seq<Row>, gaps': seq<Gap>, res: PruneResult)
  {
    && CutsOldest(before, after)
    && (forall r :: r in after ==> r.entry.timestampMs >= cutoff)
    && gaps' == GapsSince(gaps, cutoff)
    && res.byAge == |before| - |DeleteOld(before, cutoff)|
    && res.byAge + res.bySize == |before| - |after|
    && (used(after, gaps') <= maxBytes || after == [])
    && exists n: nat :: Rounds(DeleteOld(before, cutoff), maxBytes, used, gaps', n, after)
  }

  /** Pruning again at the same time and with the same limits removes nothing. */
  lemma PruneIdempotent(
    rows: seq<Row>, gaps: seq<Gap>, cutoff: int, maxBytes: int, used: UsedBytes,
    rows': seq<Row>, gaps': seq<Gap>, res: PruneResult, rows'': seq<Row>, gaps'': seq<Gap>, res': PruneResult)
    requires InIdOrder(rows')
    requires Pruned(rows, gaps, cutoff, maxBytes, used, rows', gaps', res)
    requires Pruned(rows', gaps', cutoff, maxBytes, used, rows'', gaps'', res')
    ensures rows'' == rows' && gaps'' == gaps' && res' == PruneResult(0, 0)
  {
    WhereAll(rows', (r: Row) => r.entry.timestampMs >= cutoff);
    GapsSinceAll(gaps', cutoff);
    var n: nat :| Rounds(DeleteOld(rows', cutoff), maxBytes, used, gaps'', n, rows'');
    RoundsCut(rows', maxBytes, used, gaps'', n, rows'');
  }

  /** What survives is what the age limit alone leaves, unless that was over the size limit. */
  lemma PruneKeepsWhatFits(
    rows: seq<Row>, gaps: seq<Gap>, cutoff: int, maxBytes: int, used: UsedBytes,
    rows': seq<Row>, gaps': seq<Gap>, res: PruneResult)
    requires InIdOrder(rows)
    requires Pruned(rows, gaps, cutoff, maxBytes, used, rows', gaps', res)
    ensures res.bySize == 0 <==> used(DeleteOld(rows, cutoff), gaps') <= maxBytes || DeleteOld(rows, cutoff) == []
    ensures res.bySize == 0 ==> rows' == DeleteOld(rows, cutoff)
    ensures res.bySize > 0 ==> exists last: seq<Row> :: OneRound(last, maxBytes, used, gaps', rows')
  {
    var aged := DeleteOld(rows, cutoff);
    var n: nat :| Rounds(aged, maxBytes, used, gaps', n, rows');
    DeleteOldCuts(rows, cutoff);
    RoundsCut(aged, maxBytes, used, gaps', n, rows');
  }

  /** Which statement of a Prune call the database refuses, if any. */
  type Faults = nat -> bool

  class Database {
    var sources: SourceTable
    var entries: seq<Row>
    var gaps: seq<Gap>

    ghost predicate Valid()
      reads this
    {
      Unique(sources) && InIdOrder(entries)
    }

    constructor ()
      ensures Valid() && sources == map[] && entries == [] && gaps == []
    {
      sources, entries, gaps := map[], [], [];
    }

    /** INSERT ... ON CONFLICT (component, instance) DO UPDATE SET version RETURNING id. */
    method UpsertSource(component: bytes, instance: bytes, version: bytes, fails: bool) returns (id: Result<int>)
      requires Valid()
      modifies this`sources
      ensures Valid()
      ensures fails ==> id == Err && sources == old(sources)
      ensures !fails ==> id.Ok? && Upserted(old(sources), Source(component, instance, version), sources, id.value)
      ensures KeepsIdentities(old(sources), sources)
    {
      if fails {
        return Err;
      }
      var src := Source(component, instance, version);
      var n;
      if k :| k in sources && SameIdentity(sources[k], src) {
        n := k;
      } else {
        n := FreshId(sources.Keys);
      }
      UpsertKeepsIdentities(sources, src, sources[n := src], n);
      sources := sources[n := src];
      id := Ok(n);
    }

    method AllSources(fails: bool) returns (all: Result<SourceTable>)
      ensures all == if fails then Err else Ok(sources)
    {
      all := if fails then Err else Ok(sources);
    }

    /** One transaction: all of the batch, or on an error nothing. */
    method InsertEntries(batch: seq<Entry>, fails: bool) returns (ok: bool)
      requires Valid()
      modifies this`entries
      ensures Valid()
      ensures ok == (batch == [] || !fails)
      ensures entries == if ok then InsertAll(old(entries), batch) else old(entries)
      ensures EntriesOf(entries) == if ok then EntriesOf(old(entries)) + batch else EntriesOf(old(entries))
    {
      InsertAppends(entries, batch);
      if |batch| == 0 {
        return true;
      }
      if fails {
        return false;
      }
      var rows, i := entries, 0;
      while i < |batch|
        invariant 0 <= i <= |batch|
        invariant InsertAll(rows, batch[i..]) == InsertAll(entries, batch)
      {
        rows := rows + [Row(NextId(rows), batch[i])];
        i := i + 1;
      }
      entries := rows;
      ok := true;
    }

    method InsertGap(g: Gap, fails: bool) returns (ok: bool)
      modifies this`gaps
      ensures ok == !fails && gaps == if ok then old(gaps) + [g] else old(gaps)
    {
      if !fails {
        gaps := gaps + [g];
      }
      ok := !fails;
    }

    /** The size loop of Prune over the rows the age limit left. */
    method PruneBySize(ghost aged: seq<Row>, maxBytes: int, used: UsedBytes, faults: Faults)
      returns (removed: int, ok: bool, ghost rounds: nat)
      requires entries == aged && InIdOrder(aged)
      modifies this`entries
      ensures IsCut(aged, entries)
      ensures removed == |aged| - |entries|
      ensures Rounds(aged, maxBytes, used, gaps, rounds, entries)
      ensures ok ==> used(entries, gaps) <= maxBytes || entries == []
      ensures (forall n :: !faults(n)) ==> ok
    {
      removed, ok, rounds := 0, false, 0;
      NoCut(entries);
      var statement := 3;
      while true
        invariant Rounds(aged, maxBytes, used, gaps, rounds, entries)
        invariant IsCut(aged, entries)
        invariant removed == |aged| - |entries|
        decreases |entries|
      {
        if faults(statement) {
          return;
        }
        var bytesUsed := used(entries, gaps);
        if bytesUsed <= maxBytes {
          break;
        }
        if faults(statement + 1) {
          return;
        }
        RoundDone(aged, maxBytes, used, gaps, rounds, entries);
        var n := |entries|;
        entries := DeleteOldest(entries);
        n := n - |entries|;
        rounds := rounds + 1;
        if n == 0 {
          break;
        }
        removed := removed + n;
        statement := statement + 2;
      }
      ok := true;
    }

    /**
     * Prune with cutoff = now - maxAge. However it ends, what it deleted is older than everything it
     * kept and its result counts it; a call without error also meets both limits, and a call of
     * which the database refuses no statement has no error.
     */
    method Prune(cutoff: int, maxBytes: int, used: UsedBytes, faults: Faults) returns (res: PruneResult, ok: bool)
      requires Valid()
      modifies this`entries, this`gaps
      ensures Valid()
      ensures CutsOldest(old(entries), entries)
      ensures res.byAge + res.bySize == |old(entries)| - |entries|
      ensures res.byAge == if faults(0) then 0 else |old(entries)| - |DeleteOld(old(entries), cutoff)|
      ensures gaps == if faults(0) || faults(1) then old(gaps) else GapsSince(old(gaps), cutoff)
      ensures faults(0) ==> entries == old(entries)
      ensures !faults(0) && faults(1) ==> entries == DeleteOld(old(entries), cutoff)
      ensures !faults(0) && !faults(1) ==>
        exists n: nat :: Rounds(DeleteOld(old(entries), cutoff), maxBytes, used, gaps, n, entries)
      ensures ok ==> Pruned(old(entries), old(gaps), cutoff, maxBytes, used, entries, gaps, res)
      ensures (forall n :: !faults(n)) ==> ok
      ensures ok ==> !faults(0) && !faults(1) && (res != PruneResult(0, 0) ==> !faults(2))
    {
      res, ok := PruneResult(0, 0), false;
      ghost var aged := DeleteOld(entries, cutoff);
      DeleteOldCuts(entries, cutoff);
      if faults(0) {
        return;
      }
      var n := |entries|;
      entries := DeleteOld(entries, cutoff);
      res := res.(byAge := n - |entries|);
      if faults(1) {
        return;
      }
      gaps := GapsSince(gaps, cutoff);
      ghost var rounds;
      n, ok, rounds := PruneBySize(aged, maxBytes, used, faults);
      res := res.(bySize := n);
      CutTransitive(old(entries), aged, entries);
      if ok && (res.byAge > 0 || res.bySize > 0) && faults(2) {
        ok := false; // incremental_vacuum
      }
    }
  }
}
