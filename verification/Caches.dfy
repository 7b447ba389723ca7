/**
 * The receiver's id cache and the forwarder's source cache beside a store that other producers
 * register sources in, interleaved at each access to the store.
 */
module Caches {
  import opened Wrappers
  import opened Records
  import opened Store
  import opened Receiver

  datatype Pending = Pending(key: Key, id: int)

  datatype State = State(
    table: SourceTable,
    ids: map<Key, int>, // the receiver's cache
    pending: Option<Pending>, // the receiver is between UpsertSource and storing the id
    known: SourceTable, // the forwarder's cache
    fetched: Option<SourceTable>) // the forwarder is between AllSources and storing the result

  ghost predicate Init(s: State) {
    s == State(map[], map[], None, map[], None)
  }

  /** A Ship stream registers its source. */
  ghost predicate OtherUpsert(s: State, s': State, src: Source, id: int) {
    Upserted(s.table, src, s'.table, id) && s' == s.(table := s'.table)
  }

  /** The receiver misses its cache and asks the store. */
  ghost predicate ReceiverUpsert(s: State, s': State, key: Key, id: int) {
    && s.pending.None? && key !in s.ids
    && Upserted(s.table, Source(key.component, key.instance, []), s'.table, id)
    && s' == s.(table := s'.table, pending := Some(Pending(key, id)))
  }

  ghost predicate ReceiverStores(s: State, s': State) {
    s.pending.Some? && s' == s.(ids := Remember(s.ids, s.pending.value.key, s.pending.value.id), pending := None)
  }

  ghost predicate ForwarderFetches(s: State, s': State) {
    s.fetched.None? && s' == s.(fetched := Some(s.table))
  }

  ghost predicate ForwarderStores(s: State, s': State) {
    s.fetched.Some? && s' == s.(known := s.fetched.value, fetched := None)
  }

  /** One step; a failed statement of the store changes nothing. */
  ghost predicate Next(s: State, s': State) {
    || s' == s
    || (exists src, id :: OtherUpsert(s, s', src, id))
    || (exists key, id :: ReceiverUpsert(s, s', key, id))
    || ReceiverStores(s, s')
    || ForwarderFetches(s, s')
    || ForwarderStores(s, s')
  }

  ghost predicate Inv(s: State) {
    && Unique(s.table)
    && CacheAgrees(s.ids, s.table) && |s.ids| <= MAX_SOURCES
    && KeepsIdentities(s.known, s.table)
    && (s.pending.Some? ==>
          s.pending.value.id in s.table && IsKeyOf(s.pending.value.key, s.table[s.pending.value.id]))
    && (s.fetched.Some? ==> KeepsIdentities(s.fetched.value, s.table))
  }

  lemma IdentitiesTransitive(a: SourceTable, b: SourceTable, c: SourceTable)
    requires KeepsIdentities(a, b) && KeepsIdentities(b, c)
    ensures KeepsIdentities(a, c)
  {
    forall k | k in a ensures k in c && SameIdentity(a[k], c[k]) {
      assert k in b && SameIdentity(a[k], b[k]);
      assert k in c && SameIdentity(b[k], c[k]);
    }
  }

  lemma TableGrows(s: State, s': State, src: Source, id: int)
    requires Inv(s) && OtherUpsert(s, s', src, id)
    ensures Inv(s') && KeepsIdentities(s.table, s'.table)
  {
    UpsertKeepsIdentities(s.table, src, s'.table, id);
    forall k | k in s.ids ensures s.ids[k] in s'.table && IsKeyOf(k, s'.table[s.ids[k]]) {
      var j := s.ids[k];
      assert j in s.table && IsKeyOf(k, s.table[j]);
      assert j in s'.table && SameIdentity(s.table[j], s'.table[j]);
    }
    IdentitiesTransitive(s.known, s.table, s'.table);
    if s.fetched.Some? {
      IdentitiesTransitive(s.fetched.value, s.table, s'.table);
    }
  }

  lemma ReceiverStoresKept(s: State, s': State)
    requires Inv(s) && ReceiverStores(s, s')
    ensures Inv(s') && s'.table == s.table
  {
    RememberBounded(s.ids, s.pending.value.key, s.pending.value.id);
    RememberAgrees(s.ids, s.pending.value.key, s.pending.value.id, s.table, s.table);
  }

  lemma ReceiverUpsertKept(s: State, s': State, key: Key, id: int)
    requires Inv(s) && ReceiverUpsert(s, s', key, id)
    ensures Inv(s') && KeepsIdentities(s.table, s'.table)
  {
    TableGrows(s, s'.(pending := s.pending), Source(key.component, key.instance, []), id);
  }

  lemma ForwarderKept(s: State, s': State)
    requires Inv(s) && (ForwarderFetches(s, s') || ForwarderStores(s, s'))
    ensures Inv(s') && s'.table == s.table
  {
  }

  lemma InvKept(s: State, s': State)
    requires Inv(s) && Next(s, s')
    ensures Inv(s') && KeepsIdentities(s.table, s'.table)
  {
    if s' == s {
    } else if src, id :| OtherUpsert(s, s', src, id) {
      TableGrows(s, s', src, id);
    } else if key, id :| ReceiverUpsert(s, s', key, id) {
      ReceiverUpsertKept(s, s', key, id);
    } else if ReceiverStores(s, s') {
      ReceiverStoresKept(s, s');
    } else {
      ForwarderKept(s, s');
    }
  }

  /** The i-th state comes from the one before by one step. */
  ghost predicate Follows(tr: seq<State>, i: nat)
    requires 0 < i < |tr|
  {
    Next(tr[i - 1], tr[i])
  }

  ghost predicate Run(tr: seq<State>) {
    && tr != [] && Init(tr[0])
    && forall i :: 0 < i < |tr| ==> Follows(tr, i)
  }

  lemma StepSafe(tr: seq<State>, i: nat)
    requires Run(tr) && 0 < i < |tr| && Inv(tr[i - 1])
    ensures Inv(tr[i]) && KeepsIdentities(tr[i - 1].table, tr[i].table)
  {
    assert Follows(tr, i);
    InvKept(tr[i - 1], tr[i]);
  }

  lemma {:induction false} RunSafe(tr: seq<State>, i: nat)
    requires Run(tr) && i < |tr|
    ensures Inv(tr[i])
  {
    if i > 0 {
      RunSafe(tr, i - 1);
      StepSafe(tr, i);
    }
  }

  lemma StepKeepsIdentities(tr: seq<State>, j: nat)
    requires Run(tr) && 0 < j < |tr|
    ensures KeepsIdentities(tr[j - 1].table, tr[j].table)
  {
    RunSafe(tr, j - 1);
    StepSafe(tr, j);
  }

  /** No source changes its id along a run, and no id its component and instance. */
  lemma {:induction false} RunKeepsIdentities(tr: seq<State>, i: nat, j: nat)
    requires Run(tr) && i <= j < |tr|
    ensures KeepsIdentities(tr[i].table, tr[j].table)
  {
    if i < j {
      RunKeepsIdentities(tr, i, j - 1);
      StepKeepsIdentities(tr, j);
      IdentitiesTransitive(tr[i].table, tr[j - 1].table, tr[j].table);
    }
  }

  /**
   * Both caches are right at every moment of every run: a cached id is the one the store would
   * return now, a cached source the one the store has now up to its version, and the receiver's
   * cache stays bounded.
   */
  lemma CachesAgree(tr: seq<State>, i: nat)
    requires Run(tr) && i < |tr|
    ensures |tr[i].ids| <= MAX_SOURCES
    ensures forall k, version, t', id | k in tr[i].ids
      && Upserted(tr[i].table, Source(k.component, k.instance, version), t', id) :: id == tr[i].ids[k]
    ensures forall id :: id in tr[i].known ==>
      id in tr[i].table && SameIdentity(tr[i].known[id], tr[i].table[id])
  {
    var s := tr[i];
    RunSafe(tr, i);
    forall k, version, t', id | k in s.ids && Upserted(s.table, Source(k.component, k.instance, version), t', id)
      ensures id == s.ids[k]
    {
      var j := s.ids[k];
      assert j in s.table && IsKeyOf(k, s.table[j]);
      assert SameIdentity(s.table[j], Source(k.component, k.instance, version));
    }
  }
}
