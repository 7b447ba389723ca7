/** internal/forward/forwarder.go: send and flush, changing the queue and the connection in place. */
module Sender {
  import opened Bytes
  import opened Wrappers
  import opened Records
  import opened Store
  import opened Framing
  import opened ForwardQueue
  import opened SyslogFormat

  lemma CarriedIsFrame(line: bytes, m: bytes)
    requires Carries(line, m, true)
    ensures m != [] && line == Frame(m)
  {
    ReadFrameInverse(line);
    assert Frame(m) + [] == Frame(m);
  }

  function Framed(ms: seq<bytes>): seq<bytes> {
    seq(|ms|, i requires 0 <= i < |ms| => Frame(ms[i]))
  }

  lemma {:induction false} JoinFramed(ms: seq<bytes>)
    ensures Join(Framed(ms)) == Frames(ms)
  {
    if ms != [] {
      var init, last := ms[..|ms| - 1], ms[|ms| - 1];
      JoinFramed(init);
      assert Framed(ms)[..|ms| - 1] == Framed(init);
      FramesLast(init, last);
      assert ms == init + [last];
    }
  }

  /** The frames of some messages, joined, are their stream. */
  lemma JoinIsFrames(lines: seq<bytes>, ms: seq<bytes>)
    requires AllCarry(lines, ms, true)
    ensures NonEmpty(ms) && Join(lines) == Frames(ms)
  {
    forall i | 0 <= i < |ms| ensures ms[i] != [] && lines[i] == Frame(ms[i]) {
      assert Carries(lines[i], ms[i], true);
      CarriedIsFrame(lines[i], ms[i]);
    }
    assert lines == Framed(ms);
    JoinFramed(ms);
  }

  /** What a peer accepted. */
  datatype Accepted = Accepted(stream: bytes, datagrams: seq<bytes>)

  /** What it accepted after all of the lines on top of what it had. */
  function AndAll(before: Accepted, tcp: bool, lines: seq<bytes>): Accepted {
    if tcp then before.(stream := before.stream + Join(lines)) else before.(datagrams := before.datagrams + lines)
  }

  /** No more than all of the lines on top of what it had. */
  ghost predicate AndPart(before: Accepted, after: Accepted, tcp: bool, lines: seq<bytes>) {
    && before.stream <= after.stream <= AndAll(before, tcp, lines).stream
    && before.datagrams <= after.datagrams <= AndAll(before, tcp, lines).datagrams
  }

  lemma AndAllTwice(before: Accepted, tcp: bool, a: seq<bytes>, b: seq<bytes>)
    ensures AndAll(AndAll(before, tcp, a), tcp, b) == AndAll(before, tcp, a + b)
  {
    JoinAppend(a, b);
    assert before.datagrams + a + b == before.datagrams + (a + b);
    assert before.stream + Join(a) + Join(b) == before.stream + (Join(a) + Join(b));
  }

  /** From the n-th to the m-th, every write succeeded, or with an error every one but the last. */
  ghost predicate Wrote(failure: nat -> Option<nat>, n: nat, m: nat, ok: bool) {
    && (forall i :: n <= i < (if ok then m else m - 1) ==> failure(i).None?)
    && if ok then n <= m else n < m && failure(m - 1).Some?
  }

  /**
   * What a peer reads once the messages were sent on top of what it had: over TCP, if it was not left inside a
   * frame, and over UDP the messages themselves; with an error a first part of them.
   */
  ghost predicate PeerReads(before: Accepted, after: Accepted, tcp: bool, messages: seq<bytes>, ok: bool) {
    if tcp then
      && after.datagrams == before.datagrams
      && (ReadFrames(before.stream).rest == [] ==> ReadsOn(before.stream, after.stream, messages, ok))
    else
      && after.stream == before.stream
      && before.datagrams <= after.datagrams <= before.datagrams + messages
      && (ok ==> after.datagrams == before.datagrams + messages)
  }

  lemma CarriedIsRead(before: Accepted, after: Accepted, tcp: bool, lines: seq<bytes>, messages: seq<bytes>, ok: bool)
    requires AllCarry(lines, messages, tcp)
    requires AndPart(before, after, tcp, lines) && (ok ==> after == AndAll(before, tcp, lines))
    ensures PeerReads(before, after, tcp, messages, ok)
  {
    if tcp {
      JoinIsFrames(lines, messages);
      if ReadFrames(before.stream).rest == [] {
        StreamReadsOn(before.stream, after.stream, messages, ok);
      }
    } else {
      assert forall i :: 0 <= i < |lines| ==> Carries(lines[i], messages[i], tcp);
      assert lines == messages;
    }
  }

  lemma AllCarriedIsRead(before: Accepted, after: Accepted, tcp: bool, lines: seq<bytes>, ok: bool)
    requires AndPart(before, after, tcp, lines) && (ok ==> after == AndAll(before, tcp, lines))
    ensures forall messages | AllCarry(lines, messages, tcp) :: PeerReads(before, after, tcp, messages, ok)
  {
    forall messages | AllCarry(lines, messages, tcp) ensures PeerReads(before, after, tcp, messages, ok) {
      CarriedIsRead(before, after, tcp, lines, messages, ok);
    }
  }

  lemma AllIsPart(before: Accepted, tcp: bool, lines: seq<bytes>)
    ensures AndPart(before, AndAll(before, tcp, lines), tcp, lines)
  {
  }

  lemma WroteOn(failure: nat -> Option<nat>, a: nat, b: nat, c: nat, ok: bool)
    requires Wrote(failure, a, b, true) && Wrote(failure, b, c, ok)
    ensures Wrote(failure, a, c, ok)
  {
  }

  /** A connection with what its peer accepted: a byte stream for TCP, datagrams for UDP. */
  class Connection {
    const tcp: bool
    const failure: nat -> Option<nat> // of the n-th write: how many bytes are accepted before the error
    var stream: bytes
    var datagrams: seq<bytes>
    var writes: nat

    ghost function Value(): Accepted
      reads this
    {
      Accepted(stream, datagrams)
    }

    constructor (tcp: bool, failure: nat -> Option<nat>)
      ensures this.tcp == tcp && this.failure == failure && stream == [] && datagrams == [] && writes == 0
    {
      this.tcp, this.failure, stream, datagrams, writes := tcp, failure, [], [], 0;
    }

    method Write(data: bytes) returns (ok: bool)
      modifies this
      ensures ok == old(failure(writes)).None? && writes == old(writes) + 1
      ensures ok && tcp ==> stream == old(stream) + data && datagrams == old(datagrams)
      ensures ok && !tcp ==> datagrams == old(datagrams) + [data] && stream == old(stream)
      ensures !ok ==> datagrams == old(datagrams) && old(stream) <= stream <= old(stream) + data
      ensures !tcp ==> stream == old(stream)
    {
      var f := failure(writes);
      writes := writes + 1;
      ok := f.None?;
      if tcp {
        var k := if f.None? || f.value > |data| then |data| else f.value;
        stream := stream + data[..k];
      } else if ok {
        datagrams := datagrams + [data];
      }
    }
  }

  /** The writes of send. */
  method WriteAll(conn: Connection, lines: seq<bytes>) returns (ok: bool)
    modifies conn
    ensures ok ==> conn.Value() == AndAll(old(conn.Value()), conn.tcp, lines)
    ensures !ok ==> AndPart(old(conn.Value()), conn.Value(), conn.tcp, lines)
    ensures Wrote(conn.failure, old(conn.writes), conn.writes, ok)
    ensures var writes := if conn.tcp then 1 else |lines|;
      conn.writes <= old(conn.writes) + writes && (ok ==> conn.writes == old(conn.writes) + writes)
    ensures !ok && !conn.tcp ==> conn.datagrams == old(conn.datagrams) + lines[..conn.writes - old(conn.writes) - 1]
  {
    if conn.tcp {
      ok := conn.Write(Join(lines));
      return;
    }
    var i := 0;
    while i < |lines|
      invariant 0 <= i <= |lines|
      invariant conn.datagrams == old(conn.datagrams) + lines[..i] && conn.stream == old(conn.stream)
      invariant conn.writes == old(conn.writes) + i && Wrote(conn.failure, old(conn.writes), conn.writes, true)
    {
      ok := conn.Write(lines[i]);
      if !ok {
        return;
      }
      i := i + 1;
      assert lines[..i] == lines[..i - 1] + [lines[i - 1]];
    }
    ok := true;
    assert lines[..|lines|] == lines;
  }

  /** send: one write for TCP, one datagram per line for UDP; it stops at the first write that fails. */
  method Send(conn: Connection, lines: seq<bytes>) returns (ok: bool)
    modifies conn
    ensures forall messages | AllCarry(lines, messages, conn.tcp) ::
      PeerReads(old(conn.Value()), conn.Value(), conn.tcp, messages, ok)
    ensures ok ==> conn.Value() == AndAll(old(conn.Value()), conn.tcp, lines)
    ensures !ok ==> AndPart(old(conn.Value()), conn.Value(), conn.tcp, lines)
    ensures Wrote(conn.failure, old(conn.writes), conn.writes, ok)
    ensures var writes := if conn.tcp then 1 else |lines|;
      conn.writes <= old(conn.writes) + writes && (ok ==> conn.writes == old(conn.writes) + writes)
    ensures !ok && !conn.tcp ==> conn.datagrams == old(conn.datagrams) + lines[..conn.writes - old(conn.writes) - 1]
  {
    ok := WriteAll(conn, lines);
    AllIsPart(old(conn.Value()), conn.tcp, lines);
    AllCarriedIsRead(old(conn.Value()), conn.Value(), conn.tcp, lines, ok);
  }

  lemma {:induction false} KeptConcat(a: seq<Entry>, b: seq<Entry>, ka: seq<bool>, kb: seq<bool>)
    requires |a| == |ka| && |b| == |kb|
    ensures Kept(a + b, ka + kb) == Kept(a, ka) + Kept(b, kb)
    decreases |b|
  {
    if b == [] {
      assert a + b == a && ka + kb == ka;
    } else {
      var n := |b| - 1;
      KeptConcat(a, b[..n], ka, kb[..n]);
      assert (a + b)[..|a| + n] == a + b[..n] && (ka + kb)[..|a| + n] == ka + kb[..n];
    }
  }

  lemma LinesConcat(a: seq<Entry>, b: seq<Entry>, t: SourceTable, names: bytes -> bytes, clock: TimePrinter, tcp: bool)
    ensures Lines(a + b, t, names, clock, tcp) == Lines(a, t, names, clock, tcp) + Lines(b, t, names, clock, tcp)
  {
  }

  /** The store's answers from a later entry on. */
  function From(dbFails: nat -> bool, n: nat): nat -> bool {
    (i: nat) => dbFails(n + i)
  }

  lemma KeepsSendableConcat(
    a: seq<Entry>, b: seq<Entry>, ka: seq<bool>, kb: seq<bool>, t: SourceTable, dbFails: nat -> bool)
    requires |a| == |ka| && |b| == |kb|
    requires KeepsSendable(a, ka, t, dbFails) && KeepsSendable(b, kb, t, From(dbFails, |a|))
    ensures KeepsSendable(a + b, ka + kb, t, dbFails)
  {
    forall i | 0 <= i < |a + b| ensures MayFlag((ka + kb)[i], (a + b)[i], t, dbFails(i)) {
      if i < |a| {
        assert MayFlag(ka[i], a[i], t, dbFails(i));
      } else {
        assert MayFlag(kb[i - |a|], b[i - |a|], t, From(dbFails, |a|)(i - |a|));
      }
    }
  }

  /** The surroundings of a flush: the store's sources, its answers by entry, and how lines are printed. */
  datatype Setting = Setting(t: SourceTable, dbFails: nat -> bool, names: bytes -> bytes, clock: TimePrinter, tcp: bool)

  /** kept are the flags encode may give the entries es behind n others. */
  ghost predicate MayKeep(s: Setting, n: nat, es: seq<Entry>, kept: seq<bool>) {
    |kept| == |es| && KeepsSendable(es, kept, s.t, From(s.dbFails, n))
  }

  /** The lines of the kept entries. */
  function KeptLines(s: Setting, es: seq<Entry>, kept: seq<bool>): seq<bytes>
    requires |kept| == |es|
  {
    Lines(Kept(es, kept), s.t, s.names, s.clock, s.tcp)
  }

  /** The messages of the kept entries. */
  function KeptMessages(s: Setting, es: seq<Entry>, kept: seq<bool>): seq<bytes>
    requires |kept| == |es|
  {
    MessagesOf(Kept(es, kept), s.t, s.names, s.clock)
  }

  lemma KeptLinesCarry(s: Setting, n: nat, es: seq<Entry>, kept: seq<bool>)
    requires MayKeep(s, n, es, kept)
    ensures AllCarry(KeptLines(s, es, kept), KeptMessages(s, es, kept), s.tcp)
  {
    KeptHaveSources(es, kept, s.t, From(s.dbFails, n));
    LinesCarry(Kept(es, kept), s.t, s.names, s.clock, s.tcp);
  }

  /** The entries sent so far, with the flags of encode, and what the peer accepted of them. */
  ghost predicate SentSoFar(s: Setting, sent: seq<Entry>, kept: seq<bool>, before: Accepted, now: Accepted) {
    MayKeep(s, 0, sent, kept) && now == AndAll(before, s.tcp, KeptLines(s, sent, kept))
  }

  lemma KeepsFromStart(s: Setting, es: seq<Entry>, kept: seq<bool>)
    requires |kept| == |es|
    ensures KeepsSendable(es, kept, s.t, s.dbFails) <==> MayKeep(s, 0, es, kept)
  {
    assert forall i: nat :: From(s.dbFails, 0)(i) == s.dbFails(i);
  }

  /** So it reads exactly the messages of the kept entries, and what is kept is right. */
  lemma SentIsRead(s: Setting, sent: seq<Entry>, kept: seq<bool>, before: Accepted, now: Accepted)
    requires SentSoFar(s, sent, kept, before, now)
    ensures PeerReads(before, now, s.tcp, KeptMessages(s, sent, kept), true)
    ensures KeepsRight(sent, kept, s.t, s.dbFails)
  {
    KeptLinesCarry(s, 0, sent, kept);
    AllIsPart(before, s.tcp, KeptLines(s, sent, kept));
    CarriedIsRead(before, now, s.tcp, KeptLines(s, sent, kept), KeptMessages(s, sent, kept), true);
    KeepsFromStart(s, sent, kept);
    SendableIsRight(sent, kept, s.t, s.dbFails);
  }

  /** Of a discarded batch behind n entries the peer accepted a part of what encode made of it. */
  ghost predicate PartOfBatch(s: Setting, n: nat, batch: seq<Entry>, before: Accepted, after: Accepted) {
    exists k: seq<bool> | MayKeep(s, n, batch, k) ::
      AndPart(before, after, s.tcp, KeptLines(s, batch, k)) && PeerReads(before, after, s.tcp, KeptMessages(s, batch, k), false)
  }

  lemma PartIsRead(s: Setting, n: nat, batch: seq<Entry>, k: seq<bool>, before: Accepted, after: Accepted)
    requires MayKeep(s, n, batch, k) && AndPart(before, after, s.tcp, KeptLines(s, batch, k))
    ensures PartOfBatch(s, n, batch, before, after)
  {
    KeptLinesCarry(s, n, batch, k);
    CarriedIsRead(before, after, s.tcp, KeptLines(s, batch, k), KeptMessages(s, batch, k), false);
  }

  lemma SentNothing(s: Setting, before: Accepted)
    ensures SentSoFar(s, [], [], before, before)
  {
    assert KeptLines(s, [], []) == [];
    assert before.stream + [] == before.stream && before.datagrams + [] == before.datagrams;
  }

  lemma SentOneMore(
    s: Setting, sent: seq<Entry>, kept: seq<bool>, batch: seq<Entry>, k: seq<bool>, before: Accepted, mid: Accepted, now: Accepted)
    requires SentSoFar(s, sent, kept, before, mid) && MayKeep(s, |sent|, batch, k)
    requires now == AndAll(mid, s.tcp, KeptLines(s, batch, k))
    ensures SentSoFar(s, sent + batch, kept + k, before, now)
  {
    KeepsFromStart(s, sent, kept);
    KeepsSendableConcat(sent, batch, kept, k, s.t, s.dbFails);
    KeepsFromStart(s, sent + batch, kept + k);
    KeptConcat(sent, batch, kept, k);
    LinesConcat(Kept(sent, kept), Kept(batch, k), s.t, s.names, s.clock, s.tcp);
    AndAllTwice(before, s.tcp, KeptLines(s, sent, kept), KeptLines(s, batch, k));
  }

  /** What became of a batch behind n entries: with ok the peer accepted all lines of the kept entries, else a part. */
  ghost predicate BatchSent(
    s: Setting, n: nat, batch: seq<Entry>, k: seq<bool>, before: Accepted, after: Accepted, ok: bool)
  {
    && MayKeep(s, n, batch, k)
    && if ok then after == AndAll(before, s.tcp, KeptLines(s, batch, k)) else AndPart(before, after, s.tcp, KeptLines(s, batch, k))
  }

  /** One round of flush, behind n entries sent before. */
  method FlushBatch(
    ring: Ring, encoder: Encoder, conn: Connection, names: bytes -> bytes, clock: TimePrinter, dbFails: nat -> bool, n: nat)
    returns (batch: seq<Entry>, ok: bool, ghost k: seq<bool>)
    requires ring.Valid() && encoder.Valid() && encoder.tcp == conn.tcp
    modifies ring`head, ring`n, ring`history, encoder`known, conn
    ensures ring.Valid() && encoder.Valid()
    ensures old(ring.history).queue == batch + ring.history.queue
    ensures var queued := |old(ring.history).queue|; |batch| == if MAX_BATCH < queued then MAX_BATCH else queued
    ensures batch == [] ==> ok && conn.Value() == old(conn.Value()) && conn.writes == old(conn.writes)
    ensures BatchSent(Setting(encoder.db.sources, dbFails, names, clock, conn.tcp), n, batch, k, old(conn.Value()),
                      conn.Value(), ok)
    ensures Wrote(conn.failure, old(conn.writes), conn.writes, ok)
  {
    var taken := ring.Take(MAX_BATCH);
    batch, ok, k := taken[..], true, [];
    if taken.Length == 0 {
      SentNothing(Setting(encoder.db.sources, dbFails, names, clock, conn.tcp), conn.Value());
      return;
    }
    var lines;
    lines, k := encoder.Encode(batch, names, clock, From(dbFails, n));
    ok := Send(conn, lines);
  }

  /** Of the queue, sent went out and left is still queued. */
  ghost predicate FlushedSoFar(
    s: Setting, queue: seq<Entry>, sent: seq<Entry>, kept: seq<bool>, left: seq<Entry>, before: Accepted, now: Accepted)
  {
    queue == sent + left && SentSoFar(s, sent, kept, before, now)
  }

  /** One round took the batch, of which the peer accepted all lines. */
  lemma FlushedOneMore(
    s: Setting, queue: seq<Entry>, sent: seq<Entry>, kept: seq<bool>, q: seq<Entry>, batch: seq<Entry>, k: seq<bool>,
    left: seq<Entry>, before: Accepted, mid: Accepted, now: Accepted)
    requires FlushedSoFar(s, queue, sent, kept, q, before, mid) && q == batch + left
    requires BatchSent(s, |sent|, batch, k, mid, now, true)
    ensures FlushedSoFar(s, queue, sent + batch, kept + k, left, before, now)
  {
    SentOneMore(s, sent, kept, batch, k, before, mid, now);
    assert sent + (batch + left) == sent + batch + left;
  }

  /** How flush ends: with an empty queue, or with a batch that was lost. */
  ghost predicate Flushed(
    s: Setting, queue: seq<Entry>, sent: seq<Entry>, kept: seq<bool>, lost: seq<Entry>, k: seq<bool>, left: seq<Entry>,
    before: Accepted, mid: Accepted, now: Accepted, clean: bool)
  {
    && queue == sent + lost + left && |lost| <= MAX_BATCH
    && SentSoFar(s, sent, kept, before, mid)
    && if clean then lost == [] && left == [] && now == mid
       else lost != [] && BatchSent(s, |sent|, lost, k, mid, now, false)
  }

  lemma FlushedClean(
    s: Setting, queue: seq<Entry>, sent: seq<Entry>, kept: seq<bool>, k: seq<bool>, before: Accepted, mid: Accepted)
    requires FlushedSoFar(s, queue, sent, kept, [], before, mid)
    ensures Flushed(s, queue, sent, kept, [], k, [], before, mid, mid, true)
  {
    assert sent + [] == sent + [] + [];
  }

  lemma FlushedLosing(
    s: Setting, queue: seq<Entry>, sent: seq<Entry>, kept: seq<bool>, q: seq<Entry>, batch: seq<Entry>, k: seq<bool>,
    left: seq<Entry>, before: Accepted, mid: Accepted, now: Accepted)
    requires FlushedSoFar(s, queue, sent, kept, q, before, mid) && q == batch + left && 0 < |batch| <= MAX_BATCH
    requires BatchSent(s, |sent|, batch, k, mid, now, false)
    ensures Flushed(s, queue, sent, kept, batch, k, left, before, mid, now, false)
  {
    assert sent + (batch + left) == sent + batch + left;
  }

  /** The loop of flush. */
  method FlushBatches(
    ring: Ring, encoder: Encoder, conn: Connection, names: bytes -> bytes, clock: TimePrinter, dbFails: nat -> bool)
    returns (
      clean: bool, ghost sent: seq<Entry>, ghost kept: seq<bool>, ghost lost: seq<Entry>, ghost k: seq<bool>, ghost mid: Accepted)
    requires ring.Valid() && encoder.Valid() && encoder.tcp == conn.tcp
    modifies ring`head, ring`n, ring`history, encoder`known, conn
    ensures ring.Valid() && encoder.Valid()
    ensures Wrote(conn.failure, old(conn.writes), conn.writes, clean)
    ensures Flushed(Setting(encoder.db.sources, dbFails, names, clock, conn.tcp), old(ring.history).queue, sent, kept, lost, k,
                    ring.history.queue, old(conn.Value()), mid, conn.Value(), clean)
  {
    clean, sent, kept, lost, mid := false, [], [], [], conn.Value();
    ghost var before, queue, start := mid, ring.history.queue, conn.writes;
    ghost var s := Setting(encoder.db.sources, dbFails, names, clock, conn.tcp);
    SentNothing(s, mid);
    var n := 0;
    while true
      invariant ring.Valid() && encoder.Valid() && encoder.db.sources == s.t
      invariant FlushedSoFar(s, queue, sent, kept, ring.history.queue, before, mid)
      invariant mid == conn.Value() && n == |sent|
      invariant Wrote(conn.failure, start, conn.writes, true)
      decreases |ring.history.queue|
    {
      ghost var q, writes := ring.history.queue, conn.writes;
      var batch, ok;
      batch, ok, k := FlushBatch(ring, encoder, conn, names, clock, dbFails, n);
      WroteOn(conn.failure, start, writes, conn.writes, ok);
      if |batch| == 0 {
        FlushedClean(s, queue, sent, kept, k, before, mid);
        clean := true;
        return;
      }
      if !ok {
        FlushedLosing(s, queue, sent, kept, q, batch, k, ring.history.queue, before, mid, conn.Value());
        lost := batch;
        return;
      }
      FlushedOneMore(s, queue, sent, kept, q, batch, k, ring.history.queue, before, mid, conn.Value());
      sent, kept, mid, n := sent + batch, kept + k, conn.Value(), n + |batch|;
    }
  }

  /**
   * flush, while nobody offers: it ends, and it ends clean if and only if no write failed. Then the queue
   * is empty and the lines of all entries are on the connection in the order of the queue, but for
   * entries without text or source and those whose source the store refused to tell. The first write that
   * fails ends it: one batch is discarded, of which the connection accepted a part.
   */
  method Flush(ring: Ring, encoder: Encoder, conn: Connection, names: bytes -> bytes, clock: TimePrinter, dbFails: nat -> bool)
    returns (clean: bool, ghost sent: seq<Entry>, ghost kept: seq<bool>, ghost lost: seq<Entry>, ghost mid: Accepted)
    requires ring.Valid() && encoder.Valid() && encoder.tcp == conn.tcp
    modifies ring`head, ring`n, ring`history, encoder`known, conn
    ensures ring.Valid() && encoder.Valid()
    ensures old(ring.history).queue == sent + lost + ring.history.queue && |lost| <= MAX_BATCH
    ensures Wrote(conn.failure, old(conn.writes), conn.writes, clean)
    ensures var s := Setting(encoder.db.sources, dbFails, names, clock, conn.tcp);
      && SentSoFar(s, sent, kept, old(conn.Value()), mid)
      && KeepsRight(sent, kept, s.t, dbFails)
      && PeerReads(old(conn.Value()), mid, conn.tcp, KeptMessages(s, sent, kept), true)
      && if clean then lost == [] && ring.history.queue == [] && conn.Value() == mid
         else lost != [] && PartOfBatch(s, |sent|, lost, mid, conn.Value())
  {
    ghost var k;
    clean, sent, kept, lost, k, mid := FlushBatches(ring, encoder, conn, names, clock, dbFails);
    ghost var s := Setting(encoder.db.sources, dbFails, names, clock, conn.tcp);
    SentIsRead(s, sent, kept, old(conn.Value()), mid);
    if !clean {
      PartIsRead(s, |sent|, lost, k, mid, conn.Value());
    }
  }
}
