/** internal/syslog/receiver.go: from a datagram to an entry for the writer. */
module Receiver {
  import opened Bytes
  import opened Wrappers
  import opened Records
  import opened Store
  import opened SyslogParse

  const MAX_SOURCES := 1024
  const FALLBACK_COMPONENT: bytes := Ascii("syslog")

  function LevelFor(severity: int): int {
    if severity <= 2 then LEVEL_CRITICAL
    else if severity == 3 then LEVEL_ERROR
    else if severity == 4 then LEVEL_WARNING
    else if severity <= 6 then LEVEL_INFO
    else LEVEL_DEBUG
  }

  /** time.Time.UnixMilli: rounds towards the past. */
  function UnixMilli(t: Instant): int {
    t / 1000000
  }

  /** What a datagram says: the source it belongs to and the fields of its entry. */
  datatype Ingested = Ingested(component: bytes, instance: bytes, timestampMs: int, level: int, message: bytes)

  /** host is the sender's address without port, the instance of a message without a hostname. */
  function Ingest(packet: bytes, host: bytes, read: TimeReader, now: Instant): Option<Ingested> {
    match ParseMessage(packet, read)
    case None => None
    case Some(msg) =>
      Some(Ingested(
        if msg.appName == [] then FALLBACK_COMPONENT else msg.appName,
        if msg.hostname == [] then host else msg.hostname,
        UnixMilli(if msg.time == ZERO_TIME then now else msg.time),
        LevelFor(msg.severity),
        msg.text))
  }

  function ToEntry(i: Ingested, id: int): Entry {
    Entry(id, i.timestampMs, i.level, [], i.message, CATEGORY_GENERAL)
  }

  // --- The cache of source ids --------------------------------------------------------------

  datatype Key = Key(component: bytes, instance: bytes)

  predicate IsKeyOf(k: Key, src: Source) {
    src.component == k.component && src.instance == k.instance
  }

  /** Every cached id belongs to its component and instance. */
  ghost predicate CacheAgrees(ids: map<Key, int>, t: SourceTable) {
    forall k :: k in ids ==> ids[k] in t && IsKeyOf(k, t[ids[k]])
  }

  /** The map after a miss: emptied first when it is full. */
  function Remember(ids: map<Key, int>, key: Key, id: int): map<Key, int> {
    (if |ids| >= MAX_SOURCES then map[] else ids)[key := id]
  }

  lemma RememberBounded(ids: map<Key, int>, key: Key, id: int)
    requires |ids| <= MAX_SOURCES
    ensures 0 < |Remember(ids, key, id)| <= MAX_SOURCES
  {
    var kept := if |ids| >= MAX_SOURCES then map[] else ids;
    assert Remember(ids, key, id).Keys == kept.Keys + {key};
    assert |kept.Keys + {key}| <= |kept.Keys| + 1;
  }

  lemma RememberAgrees(ids: map<Key, int>, key: Key, id: int, t: SourceTable, t': SourceTable)
    requires CacheAgrees(ids, t) && KeepsIdentities(t, t')
    requires id in t' && IsKeyOf(key, t'[id])
    ensures CacheAgrees(Remember(ids, key, id), t')
  {
    forall k | k in ids && k != key ensures ids[k] in t' && IsKeyOf(k, t'[ids[k]]) {
      var j := ids[k];
      assert j in t && IsKeyOf(k, t[j]);
      assert j in t' && SameIdentity(t[j], t'[j]);
    }
  }

  class SyslogReceiver {
    const db: Database
    var ids: map<Key, int>
    var malformed: nat // uint64

    ghost predicate Valid()
      reads this, db
    {
      db.Valid() && CacheAgrees(ids, db.sources) && |ids| <= MAX_SOURCES && malformed < UINT64
    }

    constructor (db: Database)
      requires db.Valid()
      ensures this.db == db && ids == map[] && malformed == 0 && Valid()
    {
      this.db := db;
      ids, malformed := map[], 0;
    }

    /** The id of a source, from the cache or the store. */
    method SourceId(component: bytes, instance: bytes, dbFails: bool) returns (id: Result<int>)
      requires Valid()
      modifies this`ids, db`sources
      ensures Valid() && KeepsIdentities(old(db.sources), db.sources)
      ensures id.Ok? ==> id.value in db.sources && IsKeyOf(Key(component, instance), db.sources[id.value])
      ensures Key(component, instance) in old(ids) ==>
        id == Ok(old(ids)[Key(component, instance)]) && ids == old(ids) && db.sources == old(db.sources)
      ensures Key(component, instance) !in old(ids) && id.Ok? ==>
        && Upserted(old(db.sources), Source(component, instance, []), db.sources, id.value)
        && ids == Remember(old(ids), Key(component, instance), id.value)
        && ids[Key(component, instance)] == id.value
        && (|old(ids)| < 1024 ==> forall k :: k in old(ids) ==> k in ids && ids[k] == old(ids)[k])
      ensures id.Err? ==> dbFails && ids == old(ids) && db.sources == old(db.sources)
    {
      var key := Key(component, instance);
      if key in ids {
        return Ok(ids[key]);
      }
      id := db.UpsertSource(component, instance, [], dbFails);
      if id.Err? {
        return Err;
      }
      RememberBounded(ids, key, id.value);
      RememberAgrees(ids, key, id.value, old(db.sources), db.sources);
      if |ids| >= MAX_SOURCES {
        ids := map[];
      }
      ids := ids[key := id.value];
    }

    /** added is what goes to the sink: nothing for a malformed datagram or a source the store refuses. */
    method Handle(packet: bytes, host: bytes, read: TimeReader, now: Instant, dbFails: bool)
      returns (added: Option<Entry>)
      requires Valid()
      modifies this`ids, this`malformed, db`sources
      ensures Valid() && KeepsIdentities(old(db.sources), db.sources)
      ensures var i := Ingest(packet, host, read, now);
        if i.None? then
          added == None && malformed == (old(malformed) + 1) % UINT64 && ids == old(ids) && db.sources == old(db.sources)
        else
          && malformed == old(malformed)
          && (added.None? ==> dbFails)
          && (added.Some? ==>
                var e := added.value;
                && e == ToEntry(i.value, e.sourceId)
                && e.sourceId in db.sources
                && IsKeyOf(Key(i.value.component, i.value.instance), db.sources[e.sourceId]))
    {
      var parsed := Parse(packet, read);
      if parsed.Err? {
        malformed := (malformed + 1) % UINT64;
        return None;
      }
      var msg := parsed.value;
      var component, instance := msg.appName, msg.hostname;
      if component == [] {
        component := FALLBACK_COMPONENT;
      }
      if instance == [] {
        instance := host;
      }
      var id := SourceId(component, instance, dbFails);
      if id.Err? {
        return None;
      }
      var ts := msg.time;
      if ts == ZERO_TIME {
        ts := now;
      }
      added := Some(Entry(id.value, UnixMilli(ts), LevelFor(msg.severity), [], msg.text, CATEGORY_GENERAL));
    }
  }
}
