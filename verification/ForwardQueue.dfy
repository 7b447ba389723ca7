/** internal/forward/forwarder.go: the bounded queue that drops its oldest entry, and encode. */
module ForwardQueue {
  import opened Bytes
  import opened Wrappers
  import opened Records
  import opened Store
  import opened Subsequences
  import opened SyslogFormat
  import opened Framing
  import opened SyslogParse

  const DEFAULT_QUEUE_SIZE := 10000
  const MAX_BATCH := 200
  const DROP_LOG_PERIOD := 60 * 1000000000

  // --- The queue as a value -----------------------------------------------------------------

  datatype Fate = Taken | Evicted

  datatype Removal = Removal(entry: Entry, fate: Fate)

  /** The queue with the history of what went in and what came out, oldest first. */
  datatype History = History(offered: seq<Entry>, removed: seq<Removal>, queue: seq<Entry>)

  const EMPTY := History([], [], [])

  function EntriesOf(rs: seq<Removal>): seq<Entry> {
    seq(|rs|, i requires 0 <= i < |rs| => rs[i].entry)
  }

  /** The entries that left the queue in one way, in order. */
  function Only(rs: seq<Removal>, fate: Fate): seq<Entry> {
    if rs == [] then []
    else Only(rs[..|rs| - 1], fate) + (if rs[|rs| - 1].fate == fate then [rs[|rs| - 1].entry] else [])
  }

  function Removals(es: seq<Entry>, fate: Fate): seq<Removal> {
    seq(|es|, i requires 0 <= i < |es| => Removal(es[i], fate))
  }

  /** Offer: a full queue first drops its oldest entry. */
  function Enqueue(h: History, cap: nat, e: Entry): History
    requires cap > 0
  {
    if h.queue != [] && |h.queue| == cap then
      History(h.offered + [e], h.removed + [Removal(h.queue[0], Evicted)], h.queue[1..] + [e])
    else
      History(h.offered + [e], h.removed, h.queue + [e])
  }

  function TakeCount(h: History, limit: nat): nat {
    if limit < |h.queue| then limit else |h.queue|
  }

  /** take: up to limit entries, oldest first. */
  function Dequeue(h: History, limit: nat): History {
    var k := TakeCount(h, limit);
    History(h.offered, h.removed + Removals(h.queue[..k], Taken), h.queue[k..])
  }

  /** Every offered entry is in the queue or left it, in the order of the offers. */
  ghost predicate Accounted(h: History, cap: nat) {
    h.offered == EntriesOf(h.removed) + h.queue && |h.queue| <= cap
  }

  lemma EvictionAccounted(h: History, cap: nat)
    requires Accounted(h, cap) && h.queue != []
    ensures Accounted(History(h.offered, h.removed + [Removal(h.queue[0], Evicted)], h.queue[1..]), cap)
  {
    assert EntriesOf(h.removed + [Removal(h.queue[0], Evicted)]) == EntriesOf(h.removed) + [h.queue[0]];
    assert h.queue == [h.queue[0]] + h.queue[1..];
  }

  lemma EnqueueAccounted(h: History, cap: nat, e: Entry)
    requires cap > 0 && Accounted(h, cap)
    ensures Accounted(Enqueue(h, cap, e), cap)
  {
    if |h.queue| == cap {
      EvictionAccounted(h, cap);
    }
  }

  lemma DequeueAccounted(h: History, cap: nat, limit: nat)
    requires Accounted(h, cap)
    ensures Accounted(Dequeue(h, limit), cap)
  {
    var k := TakeCount(h, limit);
    assert EntriesOf(h.removed + Removals(h.queue[..k], Taken)) == EntriesOf(h.removed) + h.queue[..k];
    assert h.queue == h.queue[..k] + h.queue[k..];
  }

  lemma {:induction false} OnlyAppend(rs: seq<Removal>, more: seq<Removal>, fate: Fate)
    ensures Only(rs + more, fate) == Only(rs, fate) + Only(more, fate)
  {
    if more == [] {
      assert rs + more == rs;
    } else {
      OnlyAppend(rs, more[..|more| - 1], fate);
      assert (rs + more)[..|rs + more| - 1] == rs + more[..|more| - 1];
    }
  }

  lemma {:induction false} OnlyOfRemovals(es: seq<Entry>, fate: Fate, asked: Fate)
    ensures Only(Removals(es, fate), asked) == if asked == fate then es else []
  {
    if es != [] {
      OnlyOfRemovals(es[..|es| - 1], fate, asked);
      assert Removals(es, fate)[..|es| - 1] == Removals(es[..|es| - 1], fate);
      assert es == es[..|es| - 1] + [es[|es| - 1]];
    }
  }

  lemma TakenAreNotEvicted(rs: seq<Removal>, es: seq<Entry>)
    ensures Only(rs + Removals(es, Taken), Evicted) == Only(rs, Evicted)
    ensures Only(rs + Removals(es, Taken), Taken) == Only(rs, Taken) + es
  {
    OnlyAppend(rs, Removals(es, Taken), Evicted);
    OnlyAppend(rs, Removals(es, Taken), Taken);
    OnlyOfRemovals(es, Taken, Evicted);
    OnlyOfRemovals(es, Taken, Taken);
  }

  lemma {:induction false} OnlyPicks(rs: seq<Removal>, fate: Fate) returns (at: seq<nat>)
    ensures Picks(at, Only(rs, fate), EntriesOf(rs))
  {
    if rs == [] {
      at := [];
    } else {
      var init := rs[..|rs| - 1];
      at := OnlyPicks(init, fate);
      PicksOneMore(at, Only(init, fate), EntriesOf(init), rs[|rs| - 1].entry);
      assert EntriesOf(rs) == EntriesOf(init) + [rs[|rs| - 1].entry];
      if rs[|rs| - 1].fate == fate {
        at := at + [|rs| - 1];
      }
    }
  }

  lemma {:induction false} OnlyCounts(rs: seq<Removal>)
    ensures |Only(rs, Taken)| + |Only(rs, Evicted)| == |rs|
  {
    if rs != [] {
      OnlyCounts(rs[..|rs| - 1]);
    }
  }

  /**
   * What the history of a bounded queue means: the queue holds the last entries offered, what was
   * taken kept its order, and the counts add up.
   */
  lemma HistoryMeaning(h: History, cap: nat)
    requires Accounted(h, cap)
    ensures h.queue == h.offered[|h.offered| - |h.queue|..]
    ensures Subsequence(Only(h.removed, Taken), h.offered)
    ensures |h.offered| == |Only(h.removed, Taken)| + |Only(h.removed, Evicted)| + |h.queue|
  {
    OnlyCounts(h.removed);
    var at := OnlyPicks(h.removed, Taken);
    assert Picks(at, Only(h.removed, Taken), h.offered);
  }

  // --- The ring -----------------------------------------------------------------------------

  /** Position i places behind head on a ring of the given length. */
  function Slot(head: nat, i: nat, length: nat): (s: nat)
    requires head < length && i <= length
    ensures s < length
  {
    if head + i < length then head + i else head + i - length
  }

  lemma ModuloUnique(x: nat, q: nat, r: nat, d: nat)
    requires q <= 1 && x == q * d + r && r < d
    ensures x % d == r
  {
  }

  lemma SlotIsModulo(head: nat, i: nat, length: nat)
    requires head < length && i <= length
    ensures (head + i) % length == Slot(head, i, length)
  {
    if head + i >= length {
      assert (head + i) == 1 * length + Slot(head, i, length);
      ModuloUnique(head + i, 1, Slot(head, i, length), length);
    } else {
      ModuloUnique(head + i, 0, head + i, length);
    }
  }

  /** The n entries on the ring from head on. */
  function OnRing(cells: seq<Entry>, head: nat, n: nat): (q: seq<Entry>)
    requires head < |cells| && n <= |cells|
    ensures |q| == n
  {
    seq(n, i requires 0 <= i < n => cells[Slot(head, i, |cells|)])
  }

  lemma RingWithoutFirst(cells: seq<Entry>, head: nat, n: nat)
    requires head < |cells| && 0 < n <= |cells|
    ensures (head + 1) % |cells| == Slot(head, 1, |cells|)
    ensures OnRing(cells, Slot(head, 1, |cells|), n - 1) == OnRing(cells, head, n)[1..]
    ensures OnRing(cells, head, n)[0] == cells[head]
  {
    SlotIsModulo(head, 1, |cells|);
  }

  lemma RingWithLast(cells: seq<Entry>, head: nat, n: nat, e: Entry)
    requires head < |cells| && n < |cells|
    ensures (head + n) % |cells| == Slot(head, n, |cells|)
    ensures OnRing(cells[Slot(head, n, |cells|) := e], head, n + 1) == OnRing(cells, head, n) + [e]
  {
    SlotIsModulo(head, n, |cells|);
  }

  function Evictions(h: History): nat {
    |Only(h.removed, Evicted)|
  }

  lemma EvictionCounts(h: History, cap: nat, e: Entry)
    requires 0 < cap && |h.queue| <= cap
    ensures Evictions(Enqueue(h, cap, e)) == Evictions(h) + if |h.queue| == cap then 1 else 0
  {
    if |h.queue| == cap {
      var r := Removal(h.queue[0], Evicted);
      assert (h.removed + [r])[..|h.removed|] == h.removed;
    }
  }

  /** The part of a Forwarder its mutex guards, and the notify channel. */
  class Ring {
    const ring: array<Entry>
    var head: nat
    var n: nat
    var dropped: nat // uint64, since the last report
    var lastDrop: Instant
    var notified: bool // the notify channel of capacity 1 is full

    ghost var history: History
    ghost var reported: nat // the sum of the drops logged
    ghost var wrapped: nat // the drops forgotten when the counter went back to 0 at 2^64

    /** The drops logged so far and the pending counter make up the evictions, as long as no counter wrapped. */
    ghost predicate CountsDrops()
      reads this
    {
      && dropped < UINT64
      && reported + dropped + wrapped == Evictions(history)
      && (wrapped > 0 ==> Evictions(history) >= UINT64)
    }

    ghost predicate Valid()
      reads this, ring
    {
      && ring.Length > 0 && head < ring.Length && n <= ring.Length
      && history.queue == OnRing(ring[..], head, n)
      && Accounted(history, ring.Length)
      && CountsDrops()
    }

    constructor (queueSize: int)
      ensures Valid() && history == EMPTY && fresh(ring)
      ensures ring.Length == if queueSize <= 0 then DEFAULT_QUEUE_SIZE else queueSize
      ensures !notified && dropped == reported == wrapped == 0 && lastDrop == ZERO_TIME
    {
      var size: nat := if queueSize <= 0 then DEFAULT_QUEUE_SIZE else queueSize;
      ring := new Entry[size];
      head, n, dropped, notified, lastDrop := 0, 0, 0, false, ZERO_TIME;
      history, reported, wrapped := EMPTY, 0, 0;
    }

    /** The part of Offer that makes room in a full ring. */
    method DropOldest()
      requires ring.Length > 0 && head < ring.Length && n == ring.Length && dropped < UINT64
      modifies this`head, this`n, this`dropped, this`wrapped
      ensures head < ring.Length && n == ring.Length - 1 && dropped < UINT64
      ensures OnRing(ring[..], head, n) == old(OnRing(ring[..], head, n))[1..]
      ensures dropped + wrapped == old(dropped + wrapped) + 1
      ensures wrapped > 0 ==> old(wrapped) > 0 || old(dropped) + 1 == UINT64
    {
      RingWithoutFirst(ring[..], head, n);
      head := (head + 1) % ring.Length;
      n := n - 1;
      if dropped + 1 == UINT64 {
        dropped, wrapped := 0, wrapped + UINT64;
      } else {
        dropped := dropped + 1;
      }
    }

    /** The assignment to the slot behind the last entry. */
    method Put(e: Entry)
      requires head < ring.Length && n < ring.Length
      modifies this`n, ring
      ensures n == old(n) + 1
      ensures OnRing(ring[..], head, n) == old(OnRing(ring[..], head, n)) + [e]
    {
      RingWithLast(ring[..], head, n, e);
      ghost var cells := ring[..];
      ring[(head + n) % ring.Length] := e;
      assert ring[..] == cells[Slot(head, n, ring.Length) := e];
      n := n + 1;
    }

    method Offer(e: Entry)
      requires Valid()
      modifies this`head, this`n, this`dropped, this`notified, this`history, this`wrapped, ring
      ensures Valid() && notified
      ensures history == Enqueue(old(history), ring.Length, e)
      ensures |old(history).queue| < ring.Length ==> history.queue == old(history).queue + [e]
      ensures |old(history).queue| == ring.Length ==> history.queue == old(history).queue[1..] + [e]
    {
      EnqueueAccounted(history, ring.Length, e);
      EvictionCounts(history, ring.Length, e);
      if n == ring.Length {
        DropOldest();
      }
      Put(e);
      history := Enqueue(history, ring.Length, e);
      notified := true;
    }

    /** The loop of take. */
    method MoveOut(count: nat) returns (out: array<Entry>)
      requires head < ring.Length && count <= n <= ring.Length
      modifies this`head
      ensures fresh(out) && head < ring.Length
      ensures out[..] == old(OnRing(ring[..], head, n))[..count]
      ensures OnRing(ring[..], head, n - count) == old(OnRing(ring[..], head, n))[count..]
    {
      ghost var q := OnRing(ring[..], head, n);
      out := new Entry[count];
      var i := 0;
      while i < out.Length
        invariant 0 <= i <= count && head < ring.Length
        invariant OnRing(ring[..], head, n - i) == q[i..]
        invariant out[..i] == q[..i]
      {
        RingWithoutFirst(ring[..], head, n - i);
        out[i] := ring[head];
        head := (head + 1) % ring.Length;
        i := i + 1;
      }
    }

    /** take */
    method Take(limit: nat) returns (out: array<Entry>)
      requires Valid()
      modifies this`head, this`n, this`history
      ensures Valid() && fresh(out)
      ensures history == Dequeue(old(history), limit)
      ensures out[..] == old(history).queue[..TakeCount(old(history), limit)]
      ensures out.Length == if limit < |old(history).queue| then limit else |old(history).queue|
      ensures old(history).queue == out[..] + history.queue
    {
      var count := if limit < n then limit else n;
      DequeueAccounted(history, ring.Length, limit);
      TakenAreNotEvicted(history.removed, history.queue[..count]);
      out := MoveOut(count);
      n := n - count;
      history := Dequeue(history, limit);
    }

    /** reportDrops: the number it logs, if it does. */
    method ReportDrops(now: Instant) returns (logged: Option<nat>)
      requires Valid()
      modifies this`dropped, this`lastDrop, this`reported
      ensures Valid()
      ensures logged.Some? <==> old(dropped) > 0 && now - old(lastDrop) >= DROP_LOG_PERIOD
      ensures logged.Some? ==> logged.value == old(dropped) && dropped == 0 && reported == old(reported) + logged.value
      ensures logged.None? ==> dropped == old(dropped) && reported == old(reported)
      ensures lastDrop == if logged.Some? then now else old(lastDrop)
    {
      if dropped == 0 || now - lastDrop < DROP_LOG_PERIOD {
        return None;
      }
      logged := Some(dropped);
      reported := reported + dropped;
      dropped, lastDrop := 0, now;
    }
  }

  // --- encode -------------------------------------------------------------------------------

  /** An entry with a message and a source. */
  predicate Sendable(e: Entry, t: SourceTable) {
    Text(e.message) != [] && e.sourceId in t
  }

  /** The line of an entry: its Format, framed for TCP. */
  function Line(e: Entry, src: Source, names: bytes -> bytes, clock: TimePrinter, tcp: bool): bytes {
    var m := Format(e, src, names(src.instance), clock);
    if tcp then Frame(m) else m
  }

  function Lines(es: seq<Entry>, t: SourceTable, names: bytes -> bytes, clock: TimePrinter, tcp: bool): seq<bytes> {
    seq(|es|, i requires 0 <= i < |es| =>
      if es[i].sourceId in t then Line(es[i], t[es[i].sourceId], names, clock, tcp) else [])
  }

  /** The messages of entries whose sources are known. */
  function MessagesOf(es: seq<Entry>, t: SourceTable, names: bytes -> bytes, clock: TimePrinter): seq<bytes> {
    seq(|es|, i requires 0 <= i < |es| =>
      if es[i].sourceId in t then Format(es[i], t[es[i].sourceId], names(t[es[i].sourceId].instance), clock) else [])
  }

  /** The line a peer reads as the message: over TCP one whole frame, over UDP the message itself. */
  predicate Carries(line: bytes, message: bytes, tcp: bool) {
    if tcp then ReadFrame(line) == Complete(message, []) else line == message
  }

  predicate AllCarry(lines: seq<bytes>, messages: seq<bytes>, tcp: bool) {
    |lines| == |messages| && forall i :: 0 <= i < |lines| ==> Carries(lines[i], messages[i], tcp)
  }

  lemma LineCarries(e: Entry, src: Source, names: bytes -> bytes, clock: TimePrinter, tcp: bool)
    ensures Carries(Line(e, src, names, clock, tcp), Format(e, src, names(src.instance), clock), tcp)
  {
    var m := Format(e, src, names(src.instance), clock);
    FormatIsNotEmpty(e, src, names(src.instance), clock);
    ReadWholeFrame(m, []);
    assert Frame(m) + [] == Frame(m);
  }

  lemma LinesCarry(es: seq<Entry>, t: SourceTable, names: bytes -> bytes, clock: TimePrinter, tcp: bool)
    requires forall i :: 0 <= i < |es| ==> es[i].sourceId in t
    ensures AllCarry(Lines(es, t, names, clock, tcp), MessagesOf(es, t, names, clock), tcp)
  {
    var lines, ms := Lines(es, t, names, clock, tcp), MessagesOf(es, t, names, clock);
    forall i | 0 <= i < |es| ensures Carries(lines[i], ms[i], tcp) {
      LineCarries(es[i], t[es[i].sourceId], names, clock, tcp);
    }
  }

  lemma LineIgnoresVersion(e: Entry, a: Source, b: Source, names: bytes -> bytes, clock: TimePrinter)
    requires SameIdentity(a, b)
    ensures Format(e, a, names(a.instance), clock) == Format(e, b, names(b.instance), clock)
  {
  }

  /** The entries a flag is set for, in order. */
  function Kept(es: seq<Entry>, kept: seq<bool>): seq<Entry>
    requires |kept| == |es|
  {
    if es == [] then []
    else Kept(es[..|es| - 1], kept[..|es| - 1]) + if kept[|es| - 1] then [es[|es| - 1]] else []
  }

  /** Kept leaves out exactly the entries without a flag. */
  lemma {:induction false} KeptPositions(es: seq<Entry>, kept: seq<bool>) returns (at: seq<nat>)
    requires |kept| == |es|
    ensures Picks(at, Kept(es, kept), es) && IsExactly(at, |es|, (p: nat) => p < |kept| && kept[p])
  {
    if es == [] {
      at := [];
    } else {
      var n := |es| - 1;
      at := KeptPositions(es[..n], kept[..n]);
      PicksOneMore(at, Kept(es[..n], kept[..n]), es[..n], es[n]);
      assert es == es[..n] + [es[n]];
      ExactlyOneMore(at, n, (p: nat) => p < |kept[..n]| && kept[..n][p], (p: nat) => p < |kept| && kept[p]);
      if kept[n] {
        at := at + [n];
      }
    }
  }

  /** The flags encode may give an entry. */
  predicate MayFlag(keep: bool, e: Entry, t: SourceTable, dbFails: bool) {
    if keep then Sendable(e, t) else dbFails || !Sendable(e, t)
  }

  /** Only entries with a message and a source are kept; one of them is left out only if the store could not be asked. */
  ghost predicate KeepsSendable(batch: seq<Entry>, kept: seq<bool>, t: SourceTable, dbFails: nat -> bool)
    requires |kept| == |batch|
  {
    forall i :: 0 <= i < |batch| ==> MayFlag(kept[i], batch[i], t, dbFails(i))
  }

  lemma KeptStep(batch: seq<Entry>, i: nat, kept: seq<bool>, keep: bool)
    requires i < |batch| && |kept| == i
    ensures Kept(batch[..i + 1], kept + [keep]) == Kept(batch[..i], kept) + if keep then [batch[i]] else []
  {
    assert batch[..i + 1][..i] == batch[..i] && (kept + [keep])[..i] == kept;
  }

  lemma KeepsSendableStep(batch: seq<Entry>, i: nat, kept: seq<bool>, keep: bool, t: SourceTable, dbFails: nat -> bool)
    requires i < |batch| && |kept| == i
    requires KeepsSendable(batch[..i], kept, t, dbFails)
    requires MayFlag(keep, batch[i], t, dbFails(i))
    ensures KeepsSendable(batch[..i + 1], kept + [keep], t, dbFails)
  {
    assert forall j :: 0 <= j < i ==> batch[..i + 1][j] == batch[..i][j];
  }

  /** What encode makes of a batch. */
  ghost predicate Encoded(
    batch: seq<Entry>, kept: seq<bool>, lines: seq<bytes>, t: SourceTable, names: bytes -> bytes, clock: TimePrinter, tcp: bool,
    dbFails: nat -> bool)
    requires |kept| == |batch|
  {
    lines == Lines(Kept(batch, kept), t, names, clock, tcp) && KeepsSendable(batch, kept, t, dbFails)
  }

  lemma LinesStep(es: seq<Entry>, e: Entry, t: SourceTable, names: bytes -> bytes, clock: TimePrinter, tcp: bool)
    requires e.sourceId in t
    ensures Lines(es + [e], t, names, clock, tcp) == Lines(es, t, names, clock, tcp) + [Line(e, t[e.sourceId], names, clock, tcp)]
  {
  }

  /** What it has made of the first i entries. */
  ghost predicate EncodedUpTo(
    batch: seq<Entry>, i: nat, kept: seq<bool>, lines: seq<bytes>, t: SourceTable, names: bytes -> bytes, clock: TimePrinter,
    tcp: bool, dbFails: nat -> bool)
    requires i <= |batch|
  {
    |kept| == i && Encoded(batch[..i], kept, lines, t, names, clock, tcp, dbFails)
  }

  lemma EncodedStep(
    batch: seq<Entry>, i: nat, kept: seq<bool>, lines: seq<bytes>, line: Option<bytes>, t: SourceTable, names: bytes -> bytes,
    clock: TimePrinter, tcp: bool, dbFails: nat -> bool)
    requires i < |batch| && EncodedUpTo(batch, i, kept, lines, t, names, clock, tcp, dbFails)
    requires line.None? ==> !Sendable(batch[i], t) || dbFails(i)
    requires line.Some? ==> Sendable(batch[i], t)
    requires line.Some? ==> line.value == Line(batch[i], t[batch[i].sourceId], names, clock, tcp)
    ensures EncodedUpTo(batch, i + 1, kept + [line.Some?], if line.Some? then lines + [line.value] else lines, t, names,
                        clock, tcp, dbFails)
  {
    KeptStep(batch, i, kept, line.Some?);
    KeepsSendableStep(batch, i, kept, line.Some?, t, dbFails);
    if line.Some? {
      LinesStep(Kept(batch[..i], kept), batch[i], t, names, clock, tcp);
    }
  }

  /** Kept are entries with a message and a source. */
  lemma KeptHaveSources(es: seq<Entry>, kept: seq<bool>, t: SourceTable, dbFails: nat -> bool)
    requires |kept| == |es| && KeepsSendable(es, kept, t, dbFails)
    ensures forall i :: 0 <= i < |Kept(es, kept)| ==> Kept(es, kept)[i].sourceId in t
  {
    var at := KeptPositions(es, kept);
    forall i | 0 <= i < |Kept(es, kept)| ensures Kept(es, kept)[i].sourceId in t {
      assert at[i] in at;
      assert MayFlag(kept[at[i]], es[at[i]], t, dbFails(at[i]));
    }
  }

  /** Which flags encode sets: an entry needs a text and a source, and with both only a failing store leaves it out. */
  ghost predicate KeepsRight(es: seq<Entry>, kept: seq<bool>, t: SourceTable, dbFails: nat -> bool) {
    && |kept| == |es|
    && (forall i :: 0 <= i < |es| && kept[i] ==> Text(es[i].message) != [] && es[i].sourceId in t)
    && (forall i :: 0 <= i < |es| && Text(es[i].message) != [] && es[i].sourceId in t && !kept[i] ==> dbFails(i))
  }

  lemma SendableIsRight(es: seq<Entry>, kept: seq<bool>, t: SourceTable, dbFails: nat -> bool)
    requires |kept| == |es| && KeepsSendable(es, kept, t, dbFails)
    ensures KeepsRight(es, kept, t, dbFails)
  {
    forall i | 0 <= i < |es|
      ensures kept[i] ==> Text(es[i].message) != [] && es[i].sourceId in t
      ensures Text(es[i].message) != [] && es[i].sourceId in t && !kept[i] ==> dbFails(i)
    {
      assert MayFlag(kept[i], es[i], t, dbFails(i));
    }
  }

  /** The part of a Forwarder only Run touches: the cached sources, and encode. */
  class Encoder {
    const db: Database
    const tcp: bool
    var known: SourceTable

    ghost predicate Valid()
      reads this, db
    {
      db.Valid() && KeepsIdentities(known, db.sources)
    }

    constructor (db: Database, tcp: bool)
      requires db.Valid()
      ensures Valid() && this.db == db && this.tcp == tcp && known == map[]
    {
      this.db, this.tcp, known := db, tcp, map[];
    }

    /** source: from the cache, else from a fresh copy of the store's table. */
    method ResolveSource(id: int, dbFails: bool) returns (src: Option<Source>)
      requires Valid()
      modifies this`known
      ensures Valid()
      ensures src.Some? ==> id in db.sources && SameIdentity(src.value, db.sources[id])
      ensures src.None? ==> dbFails || id !in db.sources
      ensures known == if id in old(known) || dbFails then old(known) else db.sources
    {
      if id in known {
        return Some(known[id]);
      }
      var all := db.AllSources(dbFails);
      if all.Err? {
        return None;
      }
      known := all.value;
      src := if id in known then Some(known[id]) else None;
    }

    /** The line of one entry, None if encode skips it. */
    method EncodeOne(e: Entry, names: bytes -> bytes, clock: TimePrinter, dbFails: bool) returns (line: Option<bytes>)
      requires Valid()
      modifies this`known
      ensures Valid()
      ensures line.None? ==> !Sendable(e, db.sources) || dbFails
      ensures line.Some? ==> Sendable(e, db.sources)
      ensures line.Some? ==> line.value == Line(e, db.sources[e.sourceId], names, clock, tcp)
      ensures line.Some? ==>
        Carries(line.value, Format(e, db.sources[e.sourceId], names(db.sources[e.sourceId].instance), clock), tcp)
    {
      var text := CutText(e.message);
      if text == [] {
        return None;
      }
      var src := ResolveSource(e.sourceId, dbFails);
      if src.None? {
        return None;
      }
      var message := BuildMessage(e, src.value, names(src.value.instance), clock);
      LineIgnoresVersion(e, src.value, db.sources[e.sourceId], names, clock);
      LineCarries(e, db.sources[e.sourceId], names, clock, tcp);
      line := Some(if tcp then Frame(message) else message);
    }

    /**
     * encode: the lines of the batch, framed for TCP. Kept are entries with a message and a source,
     * and all of them unless the store could not be asked.
     */
    method Encode(batch: seq<Entry>, names: bytes -> bytes, clock: TimePrinter, dbFails: nat -> bool)
      returns (lines: seq<bytes>, ghost kept: seq<bool>)
      requires Valid()
      modifies this`known
      ensures Valid() && |kept| == |batch|
      ensures Encoded(batch, kept, lines, db.sources, names, clock, tcp, dbFails)
      ensures AllCarry(lines, MessagesOf(Kept(batch, kept), db.sources, names, clock), tcp)
      ensures KeepsRight(batch, kept, db.sources, dbFails)
    {
      lines, kept := [], [];
      ghost var t := db.sources;
      var i := 0;
      while i < |batch|
        invariant 0 <= i <= |batch| && Valid() && db.sources == t
        invariant EncodedUpTo(batch, i, kept, lines, t, names, clock, tcp, dbFails)
      {
        var line := EncodeOne(batch[i], names, clock, dbFails(i));
        EncodedStep(batch, i, kept, lines, line, t, names, clock, tcp, dbFails);
        lines := if line.Some? then lines + [line.value] else lines;
        kept := kept + [line.Some?];
        i := i + 1;
      }
      assert batch[..|batch|] == batch;
      SendableIsRight(batch, kept, t, dbFails);
      KeptHaveSources(batch, kept, t, dbFails);
      LinesCarry(Kept(batch, kept), t, names, clock, tcp);
    }
  }
}
