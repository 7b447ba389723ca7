/**
 * internal/forward/forwarder.go: any number of goroutines calling Offer beside Run, as a transition
 * system. An action is one atomic step: the locked part of Offer, its non-blocking send to notify, one
 * operation of Run or of its deferred flush, the cancellation of the context. The network decides
 * whether a dial or a write fails and how much of a failed write was accepted. What encode renders is
 * Format of the entries it keeps, under the source of each and whatever name the instance has then.
 */
module Delivery {
  import opened Bytes
  import opened Wrappers
  import opened Records
  import opened SyslogFormat
  import opened SyslogParse
  import opened Framing
  import opened ForwardQueue
  import RoundTrip

  datatype Net = Tcp | Udp

  type Capacity = n: nat | n > 0 witness 1

  /**
   * What does not change in a run: the size of the queue, the network, the component and instance
   * that belong to each id for good (Caches.RunKeepsIdentities), and how times are printed.
   */
  datatype Setup = Setup(cap: Capacity, net: Net, source: int -> Source, clock: TimePrinter)

  /**
   * A connection ever made, with what it accepted. start, good and limit count forwarded messages:
   * those before the first it got, those handed to it by sends that returned nil, those handed to it.
   */
  datatype Conn = Conn(start: nat, good: nat, limit: nat, stream: bytes, datagrams: seq<bytes>)

  datatype Pc =
    | Taking | Waiting | Encoding | Sending | DialFailed | Backoff | SendFailed
    | FlushTaking | FlushEncoding | FlushSending
    | Done(clean: bool) // clean: flush found the queue empty

  datatype Outcome = Written | Skipped

  datatype Settled = Settled(entry: Entry, outcome: Outcome)

  datatype State = State(
    history: History,
    notifying: set<int>, // offerers between enqueue and notify
    notified: bool,
    cancelled: bool,
    pc: Pc,
    batch: seq<Entry>, // taken and not settled
    kept: seq<bool>, // which of them encode rendered
    forwarded: seq<bytes>, // every message rendered so far
    senders: seq<Entry>, // the entry of each of them
    aliases: seq<bytes>, // and the name its instance had
    done: nat, // how many went out in a send that returned nil
    settled: seq<Settled>, // the entries of finished batches
    conns: seq<Conn>,
    connected: bool, // to the last of conns
    late: seq<Entry>) // offered since flush found the queue empty

  const INIT := State(EMPTY, {}, false, false, Taking, [], [], [], [], [], 0, [], [], false, [])

  datatype Action =
    | OfferEnqueue(who: int, e: Entry)
    | OfferNotify(who: int)
    | Cancel
    | Take
    | WakeNotified
    | WakeCancelled
    | Encode(kept: seq<bool>, aliases: seq<bytes>)
    | NothingToSend
    | DialOk
    | DialErr
    | CheckContext
    | BackoffOver
    | BackoffCancelled
    | SendOk
    | SendErr(accepted: nat) // bytes for TCP, datagrams for UDP

  /** How a finished batch ended: every rendered entry was written. */
  function Settle(es: seq<Entry>, kept: seq<bool>): seq<Settled>
    requires |kept| == |es|
  {
    seq(|es|, i requires 0 <= i < |es| => Settled(es[i], if kept[i] then Written else Skipped))
  }

  /** The messages of the batch that are still to be sent. */
  function Payload(s: State): seq<bytes>
    requires s.done <= |s.forwarded|
  {
    s.forwarded[s.done..]
  }

  /** What encode renders. */
  function Messages(es: seq<Entry>, aliases: seq<bytes>, u: Setup): seq<bytes>
    requires |aliases| == |es|
  {
    seq(|es|, i requires 0 <= i < |es| => Format(es[i], u.source(es[i].sourceId), aliases[i], u.clock))
  }

  predicate CanSend(s: State) {
    && s.connected && s.conns != [] && s.done <= |s.forwarded| && |s.kept| == |s.batch|
    && (s.pc.FlushSending? || (s.pc.Sending? && s.done < |s.forwarded|))
  }

  predicate Enabled(s: State, u: Setup, a: Action) {
    match a
    case OfferEnqueue(who, _) => who !in s.notifying
    case OfferNotify(who) => who in s.notifying
    case Cancel => true
    case Take => s.pc.Taking? || s.pc.FlushTaking?
    case WakeNotified => s.pc.Waiting? && s.notified
    case WakeCancelled => s.pc.Waiting? && s.cancelled
    case Encode(kept, aliases) =>
      && (s.pc.Encoding? || s.pc.FlushEncoding?)
      && |kept| == |s.batch| && |aliases| == |Kept(s.batch, kept)|
      && forall i :: 0 <= i < |kept| && kept[i] ==> Text(s.batch[i].message) != []
    case NothingToSend => s.pc.Sending? && s.done == |s.forwarded| && |s.kept| == |s.batch|
    case DialOk => s.pc.Sending? && s.done < |s.forwarded| && !s.connected
    case DialErr => s.pc.Sending? && s.done < |s.forwarded| && !s.connected
    case CheckContext => s.pc.DialFailed? || s.pc.SendFailed?
    case BackoffOver => s.pc.Backoff?
    case BackoffCancelled => s.pc.Backoff? && s.cancelled
    case SendOk => CanSend(s)
    case SendErr(accepted) =>
      CanSend(s) && if u.net.Tcp? then accepted <= |Frames(Payload(s))| else accepted < |Payload(s)|
  }

  /** Where return takes Run: the deferred function flushes over a connection, if there is one. */
  function Returned(s: State): State {
    s.(pc := if s.connected then FlushTaking else Done(false))
  }

  /** The last connection after it was handed the payload and accepted the given part of it. */
  function Handed(s: State, net: Net, accepted: nat, ok: bool): Conn
    requires CanSend(s)
    requires if net.Tcp? then accepted <= |Frames(Payload(s))| else accepted <= |Payload(s)|
  {
    var c := s.conns[|s.conns| - 1];
    var good := if ok then |s.forwarded| else c.good;
    if net.Tcp? then Conn(c.start, good, |s.forwarded|, c.stream + Frames(Payload(s))[..accepted], c.datagrams)
    else Conn(c.start, good, |s.forwarded|, c.stream, c.datagrams + Payload(s)[..accepted])
  }

  function Apply(s: State, u: Setup, a: Action): State
    requires Enabled(s, u, a)
  {
    match a
    case OfferEnqueue(who, e) =>
      s.(history := Enqueue(s.history, u.cap, e), notifying := s.notifying + {who}, late := s.late + [e])
    case OfferNotify(who) => s.(notifying := s.notifying - {who}, notified := true)
    case Cancel => s.(cancelled := true)
    case Take =>
      var k := TakeCount(s.history, MAX_BATCH);
      var s' := s.(history := Dequeue(s.history, MAX_BATCH), batch := s.history.queue[..k], kept := []);
      if s.pc.Taking? then s'.(pc := if k == 0 then Waiting else Encoding)
      else if k == 0 then s'.(pc := Done(true), connected := false, late := [])
      else s'.(pc := FlushEncoding)
    case WakeNotified => s.(notified := false, pc := Taking)
    case WakeCancelled => Returned(s)
    case Encode(kept, aliases) =>
      var es := Kept(s.batch, kept);
      s.(kept := kept, forwarded := s.forwarded + Messages(es, aliases, u), senders := s.senders + es,
         aliases := s.aliases + aliases, pc := if s.pc.Encoding? then Sending else FlushSending)
    case NothingToSend => s.(settled := s.settled + Settle(s.batch, s.kept), batch := [], kept := [], pc := Taking)
    case DialOk => s.(conns := s.conns + [Conn(s.done, s.done, s.done, [], [])], connected := true)
    case DialErr => s.(pc := DialFailed)
    case CheckContext =>
      if s.cancelled then Returned(s) else s.(pc := if s.pc.DialFailed? then Backoff else Sending)
    case BackoffOver => s.(pc := Sending)
    case BackoffCancelled => Returned(s)
    case SendOk =>
      var all := if u.net.Tcp? then |Frames(Payload(s))| else |Payload(s)|;
      s.(conns := s.conns[..|s.conns| - 1] + [Handed(s, u.net, all, true)], done := |s.forwarded|,
         settled := s.settled + Settle(s.batch, s.kept), batch := [], kept := [],
         pc := if s.pc.Sending? then Taking else FlushTaking)
    case SendErr(accepted) =>
      s.(conns := s.conns[..|s.conns| - 1] + [Handed(s, u.net, accepted, false)], connected := false,
         pc := if s.pc.Sending? then SendFailed else Done(false))
  }

  ghost predicate Next(s: State, s': State, u: Setup)
  {
    exists a :: Enabled(s, u, a) && s' == Apply(s, u, a)
  }

  /** The i-th state comes from the one before by one step. */
  ghost predicate Follows(tr: seq<State>, i: nat, u: Setup)
    requires 0 < i < |tr|
  {
    Next(tr[i - 1], tr[i], u)
  }

  ghost predicate Run(tr: seq<State>, u: Setup) {
    && tr != [] && tr[0] == INIT
    && forall i :: 0 < i < |tr| ==> Follows(tr, i, u)
  }

  // --- No lost wakeup -----------------------------------------------------------------------

  ghost predicate WakeupInv(s: State) {
    s.pc.Waiting? && s.history.queue != [] ==> s.notified || s.notifying != {}
  }

  lemma WakeupKept(s: State, u: Setup, a: Action)
    requires WakeupInv(s) && Enabled(s, u, a)
    ensures WakeupInv(Apply(s, u, a))
  {
    if a.OfferEnqueue? {
      assert a.who in Apply(s, u, a).notifying;
    }
  }

  /** Run flushes over a connection, has none while it waits for one or when it is done, and stops only once cancelled. */
  ghost predicate ConnectedInv(s: State) {
    && (s.pc.FlushTaking? || s.pc.FlushEncoding? || s.pc.FlushSending? || s.pc.Done? ==> s.cancelled)
    && (s.connected ==> s.conns != [])
    && (s.pc.FlushTaking? || s.pc.FlushEncoding? || s.pc.FlushSending? ==> s.connected)
    && (s.pc.DialFailed? || s.pc.Backoff? || s.pc.SendFailed? || s.pc.Done? ==> !s.connected)
  }

  lemma ConnectedKept(s: State, u: Setup, a: Action)
    requires ConnectedInv(s) && Enabled(s, u, a)
    ensures ConnectedInv(Apply(s, u, a))
  {
  }

  // --- What becomes of the entries --------------------------------------------------------------

  function SettledEntries(ss: seq<Settled>): seq<Entry> {
    seq(|ss|, i requires 0 <= i < |ss| => ss[i].entry)
  }

  function With(ss: seq<Settled>, outcome: Outcome): seq<Entry> {
    if ss == [] then []
    else With(ss[..|ss| - 1], outcome) + if ss[|ss| - 1].outcome == outcome then [ss[|ss| - 1].entry] else []
  }

  lemma {:induction false} WithAppend(a: seq<Settled>, b: seq<Settled>, outcome: Outcome)
    ensures With(a + b, outcome) == With(a, outcome) + With(b, outcome)
  {
    if b == [] {
      assert a + b == a;
    } else {
      WithAppend(a, b[..|b| - 1], outcome);
      assert (a + b)[..|a + b| - 1] == a + b[..|b| - 1];
    }
  }

  lemma {:induction false} WrittenOfSettle(es: seq<Entry>, kept: seq<bool>)
    requires |kept| == |es|
    ensures With(Settle(es, kept), Written) == Kept(es, kept)
    ensures |Kept(es, kept)| <= |es|
  {
    if es != [] {
      var n := |es| - 1;
      WrittenOfSettle(es[..n], kept[..n]);
      assert Settle(es, kept)[..n] == Settle(es[..n], kept[..n]);
    }
  }

  /** Run has a batch in hand that encode rendered. */
  predicate Rendered(pc: Pc) {
    pc.Sending? || pc.DialFailed? || pc.Backoff? || pc.SendFailed? || pc.FlushSending?
  }

  /** Run has no batch in hand. */
  predicate Idle(pc: Pc) {
    pc.Taking? || pc.Waiting? || pc.FlushTaking? || pc == Done(true)
  }

  predicate IsSuffix<T(==)>(a: seq<T>, b: seq<T>) {
    |a| <= |b| && a == b[|b| - |a|..]
  }

  /** The senders behind the first done of them are those of the batch in hand, unless it is yet to be rendered. */
  predicate SendersRest(s: State)
    requires s.done <= |s.senders|
  {
    s.senders[s.done..] == [] || (|s.kept| == |s.batch| && s.senders[s.done..] == Kept(s.batch, s.kept))
  }

  ghost predicate EntriesInv(s: State, cap: nat) {
    && Accounted(s.history, cap)
    && Only(s.history.removed, Taken) == SettledEntries(s.settled) + s.batch
    && |s.batch| <= MAX_BATCH
    && |s.senders| == |s.forwarded| && s.done <= |s.forwarded|
    && With(s.settled, Written) == s.senders[..s.done]
    && (Idle(s.pc) ==> s.batch == [])
    && (Idle(s.pc) || s.pc.Encoding? || s.pc.FlushEncoding? ==> s.done == |s.forwarded|)
    && (Rendered(s.pc) ==> |s.kept| == |s.batch| && s.senders[s.done..] == Kept(s.batch, s.kept))
    && |s.forwarded| - s.done <= |s.batch|
    && SendersRest(s)
    && (s.pc == Done(true) ==> IsSuffix(s.history.queue, s.late))
  }

  lemma SettleAll(s: State, cap: nat)
    requires EntriesInv(s, cap) && Rendered(s.pc)
    ensures var settled := s.settled + Settle(s.batch, s.kept);
      && With(settled, Written) == s.senders
      && SettledEntries(settled) == Only(s.history.removed, Taken)
  {
    WithAppend(s.settled, Settle(s.batch, s.kept), Written);
    WrittenOfSettle(s.batch, s.kept);
    assert s.senders == s.senders[..s.done] + s.senders[s.done..];
  }

  lemma TakeEntries(s: State, cap: nat)
    requires EntriesInv(s, cap) && (s.pc.Taking? || s.pc.FlushTaking?)
    ensures var k, h := TakeCount(s.history, MAX_BATCH), Dequeue(s.history, MAX_BATCH);
      && Accounted(h, cap)
      && Only(h.removed, Taken) == SettledEntries(s.settled) + s.history.queue[..k]
  {
    DequeueAccounted(s.history, cap, MAX_BATCH);
    TakenAreNotEvicted(s.history.removed, s.history.queue[..TakeCount(s.history, MAX_BATCH)]);
  }

  lemma EnqueueEntries(s: State, cap: Capacity, e: Entry)
    requires Accounted(s.history, cap)
    ensures var h := Enqueue(s.history, cap, e);
      Accounted(h, cap) && Only(h.removed, Taken) == Only(s.history.removed, Taken) && |h.queue| <= |s.history.queue| + 1
  {
    EnqueueAccounted(s.history, cap, e);
    var h := s.history;
    if |h.queue| == cap {
      assert (h.removed + [Removal(h.queue[0], Evicted)])[..|h.removed|] == h.removed;
    }
  }

  lemma EntriesKeptByOffer(s: State, u: Setup, a: Action)
    requires EntriesInv(s, u.cap) && Enabled(s, u, a) && a.OfferEnqueue?
    ensures EntriesInv(Apply(s, u, a), u.cap)
  {
    EnqueueEntries(s, u.cap, a.e);
  }

  lemma EntriesKeptByTake(s: State, u: Setup, a: Action)
    requires EntriesInv(s, u.cap) && Enabled(s, u, a) && a.Take?
    ensures EntriesInv(Apply(s, u, a), u.cap)
  {
    TakeEntries(s, u.cap);
    assert s.senders[s.done..] == [];
    assert s.history.queue == [] ==> Dequeue(s.history, MAX_BATCH).queue == [];
  }

  lemma EntriesKeptByEncode(s: State, u: Setup, a: Action)
    requires EntriesInv(s, u.cap) && Enabled(s, u, a) && a.Encode?
    ensures EntriesInv(Apply(s, u, a), u.cap)
  {
    var senders := s.senders + Kept(s.batch, a.kept);
    assert senders[..s.done] == s.senders[..s.done];
    assert senders[s.done..] == Kept(s.batch, a.kept);
    WrittenOfSettle(s.batch, a.kept);
  }

  lemma EntriesKeptBySettling(s: State, u: Setup, a: Action)
    requires EntriesInv(s, u.cap) && Enabled(s, u, a) && (a.NothingToSend? || a.SendOk?)
    ensures EntriesInv(Apply(s, u, a), u.cap)
  {
    SettleAll(s, u.cap);
    assert s.senders[..|s.forwarded|] == s.senders;
  }

  lemma EntriesKept(s: State, u: Setup, a: Action)
    requires EntriesInv(s, u.cap) && ConnectedInv(s) && Enabled(s, u, a)
    ensures EntriesInv(Apply(s, u, a), u.cap)
  {
    match a
    case OfferEnqueue(_, _) => EntriesKeptByOffer(s, u, a);
    case Take => EntriesKeptByTake(s, u, a);
    case Encode(_, _) => EntriesKeptByEncode(s, u, a);
    case NothingToSend => EntriesKeptBySettling(s, u, a);
    case SendOk => EntriesKeptBySettling(s, u, a);
    case SendErr(_) =>
    case _ =>
  }

  // --- What is forwarded ----------------------------------------------------------------------

  /** Every forwarded message is the Format of its sender. */
  ghost predicate MessagesInv(s: State, u: Setup) {
    |s.aliases| == |s.senders| && s.forwarded == Messages(s.senders, s.aliases, u)
  }

  lemma MessagesAppend(es: seq<Entry>, aliases: seq<bytes>, es': seq<Entry>, aliases': seq<bytes>, u: Setup)
    requires |aliases| == |es| && |aliases'| == |es'|
    ensures Messages(es + es', aliases + aliases', u) == Messages(es, aliases, u) + Messages(es', aliases', u)
  {
  }

  lemma MessagesKept(s: State, u: Setup, a: Action)
    requires MessagesInv(s, u) && Enabled(s, u, a)
    ensures MessagesInv(Apply(s, u, a), u)
  {
    if a.Encode? {
      MessagesAppend(s.senders, s.aliases, Kept(s.batch, a.kept), a.aliases, u);
    }
  }

  // --- What each connection accepted ----------------------------------------------------------

  ghost predicate ConnOk(c: Conn, net: Net, forwarded: seq<bytes>) {
    && c.start <= c.good <= c.limit <= |forwarded| && c.limit <= c.good + MAX_BATCH
    && if net.Tcp? then
         && Frames(forwarded[c.start..c.good]) <= c.stream <= Frames(forwarded[c.start..c.limit])
       else
         && c.good <= c.start + |c.datagrams| <= c.limit
         && c.datagrams == forwarded[c.start..c.start + |c.datagrams|]
  }

  /** A connection whose sends all returned nil so far: it accepted exactly what it was handed. */
  ghost predicate ConnLive(c: Conn, net: Net, forwarded: seq<bytes>, done: nat) {
    && c.start <= c.good == c.limit == done <= |forwarded|
    && if net.Tcp? then c.stream == Frames(forwarded[c.start..done]) else c.datagrams == forwarded[c.start..done]
  }

  /** Each connection starts where the one before got to by sends that returned nil. */
  ghost predicate Chain(conns: seq<Conn>, done: nat) {
    && (conns == [] ==> done == 0)
    && (conns != [] ==> conns[0].start == 0 && conns[|conns| - 1].good == done)
    && forall i :: 0 < i < |conns| ==> conns[i].start == conns[i - 1].good
  }

  ghost predicate ConnsOk(conns: seq<Conn>, connected: bool, forwarded: seq<bytes>, done: nat, net: Net) {
    && NonEmpty(forwarded) && done <= |forwarded|
    && (forall i :: 0 <= i < |conns| ==> ConnOk(conns[i], net, forwarded))
    && Chain(conns, done)
    && (connected ==> conns != [] && ConnLive(conns[|conns| - 1], net, forwarded, done))
  }

  ghost predicate ConnsInv(s: State, net: Net) {
    ConnsOk(s.conns, s.connected, s.forwarded, s.done, net)
  }

  lemma ConnOkGrows(c: Conn, net: Net, forwarded: seq<bytes>, more: seq<bytes>)
    requires ConnOk(c, net, forwarded)
    ensures ConnOk(c, net, forwarded + more)
  {
    assert (forwarded + more)[c.start..c.good] == forwarded[c.start..c.good];
    assert (forwarded + more)[c.start..c.limit] == forwarded[c.start..c.limit];
    if net.Udp? {
      assert (forwarded + more)[c.start..c.start + |c.datagrams|] == forwarded[c.start..c.start + |c.datagrams|];
    }
  }

  lemma FramesOfSlices(forwarded: seq<bytes>, start: nat, done: nat)
    requires start <= done <= |forwarded|
    ensures Frames(forwarded[start..]) == Frames(forwarded[start..done]) + Frames(forwarded[done..])
  {
    FramesSplit(forwarded[start..], done - start);
    assert forwarded[start..][..done - start] == forwarded[start..done];
    assert forwarded[start..][done - start..] == forwarded[done..];
  }

  /** Handing the payload to the live connection. */
  lemma HandedOk(s: State, net: Net, accepted: nat, ok: bool)
    requires ConnsInv(s, net) && CanSend(s) && |s.forwarded| - s.done <= MAX_BATCH
    requires if net.Tcp? then accepted <= |Frames(Payload(s))| else accepted <= |Payload(s)|
    requires ok ==> accepted == if net.Tcp? then |Frames(Payload(s))| else |Payload(s)|
    ensures var c := Handed(s, net, accepted, ok);
      && ConnOk(c, net, s.forwarded) && c.start == s.conns[|s.conns| - 1].start
      && (ok ==> ConnLive(c, net, s.forwarded, |s.forwarded|))
      && (!ok ==> c.good == s.done)
  {
    var c, c' := s.conns[|s.conns| - 1], Handed(s, net, accepted, ok);
    var fw := s.forwarded;
    assert fw[c.start..|fw|] == fw[c.start..];
    if net.Tcp? {
      FramesOfSlices(fw, c.start, s.done);
      assert c.stream + Frames(Payload(s)) == Frames(fw[c.start..]);
      assert c.stream <= c'.stream <= c.stream + Frames(Payload(s));
    } else {
      assert c'.datagrams == fw[c.start..s.done + accepted];
    }
  }

  lemma ReplaceLast(conns: seq<Conn>, done: nat, c: Conn)
    requires conns != [] && Chain(conns, done) && c.start == conns[|conns| - 1].start
    ensures Chain(conns[..|conns| - 1] + [c], c.good)
  {
  }

  lemma ReplacingKeepsConns(conns: seq<Conn>, c: Conn, ok: bool, forwarded: seq<bytes>, done: nat, net: Net)
    requires ConnsOk(conns, true, forwarded, done, net)
    requires ConnOk(c, net, forwarded) && c.start == conns[|conns| - 1].start && c.good <= |forwarded|
    requires ok ==> ConnLive(c, net, forwarded, c.good)
    ensures ConnsOk(conns[..|conns| - 1] + [c], ok, forwarded, c.good, net)
  {
    var conns' := conns[..|conns| - 1] + [c];
    ReplaceLast(conns, done, c);
    forall i | 0 <= i < |conns'| ensures ConnOk(conns'[i], net, forwarded) {
      assert i < |conns| - 1 ==> conns'[i] == conns[i];
    }
  }

  lemma SendKeepsConns(s: State, net: Net, accepted: nat, ok: bool)
    requires ConnsInv(s, net) && CanSend(s) && |s.forwarded| - s.done <= MAX_BATCH
    requires if net.Tcp? then accepted <= |Frames(Payload(s))| else accepted <= |Payload(s)|
    requires ok ==> accepted == if net.Tcp? then |Frames(Payload(s))| else |Payload(s)|
    ensures ConnsOk(s.conns[..|s.conns| - 1] + [Handed(s, net, accepted, ok)], ok, s.forwarded,
                    if ok then |s.forwarded| else s.done, net)
  {
    HandedOk(s, net, accepted, ok);
    ReplacingKeepsConns(s.conns, Handed(s, net, accepted, ok), ok, s.forwarded, s.done, net);
  }

  lemma DialKeepsConns(conns: seq<Conn>, forwarded: seq<bytes>, done: nat, net: Net)
    requires ConnsOk(conns, false, forwarded, done, net)
    ensures ConnsOk(conns + [Conn(done, done, done, [], [])], true, forwarded, done, net)
  {
    assert forwarded[done..done] == [];
    assert ConnLive(Conn(done, done, done, [], []), net, forwarded, done);
  }

  lemma EncodeKeepsConns(conns: seq<Conn>, connected: bool, forwarded: seq<bytes>, more: seq<bytes>, done: nat, net: Net)
    requires ConnsOk(conns, connected, forwarded, done, net) && NonEmpty(more)
    ensures ConnsOk(conns, connected, forwarded + more, done, net)
  {
    forall i | 0 <= i < |conns| ensures ConnOk(conns[i], net, forwarded + more) {
      ConnOkGrows(conns[i], net, forwarded, more);
    }
    if connected {
      var c := conns[|conns| - 1];
      assert (forwarded + more)[c.start..done] == forwarded[c.start..done];
    }
  }

  lemma MessagesAreNonEmpty(es: seq<Entry>, aliases: seq<bytes>, u: Setup)
    requires |aliases| == |es|
    ensures NonEmpty(Messages(es, aliases, u))
  {
    forall i | 0 <= i < |es| ensures Messages(es, aliases, u)[i] != [] {
      FormatIsNotEmpty(es[i], u.source(es[i].sourceId), aliases[i], u.clock);
    }
  }

  lemma ConnsKeptBySend(s: State, u: Setup, a: Action)
    requires ConnsInv(s, u.net) && |s.forwarded| - s.done <= MAX_BATCH && Enabled(s, u, a)
    requires a.SendOk? || a.SendErr?
    ensures ConnsInv(Apply(s, u, a), u.net)
  {
    match a
    case SendOk => SendKeepsConns(s, u.net, if u.net.Tcp? then |Frames(Payload(s))| else |Payload(s)|, true);
    case SendErr(accepted) => SendKeepsConns(s, u.net, accepted, false);
  }

  lemma ConnsKept(s: State, u: Setup, a: Action)
    requires ConnsInv(s, u.net) && |s.forwarded| - s.done <= MAX_BATCH && Enabled(s, u, a)
    ensures ConnsInv(Apply(s, u, a), u.net)
  {
    if a.SendOk? || a.SendErr? {
      ConnsKeptBySend(s, u, a);
    } else if a.Encode? {
      MessagesAreNonEmpty(Kept(s.batch, a.kept), a.aliases, u);
      EncodeKeepsConns(s.conns, s.connected, s.forwarded, Messages(Kept(s.batch, a.kept), a.aliases, u), s.done, u.net);
    } else if a.DialOk? {
      DialKeepsConns(s.conns, s.forwarded, s.done, u.net);
    }
  }

  // --- Every run ------------------------------------------------------------------------------

  ghost predicate Inv(s: State, u: Setup) {
    WakeupInv(s) && ConnectedInv(s) && EntriesInv(s, u.cap) && MessagesInv(s, u) && ConnsInv(s, u.net)
  }

  lemma InvKept(s: State, u: Setup, a: Action)
    requires Inv(s, u) && Enabled(s, u, a)
    ensures Inv(Apply(s, u, a), u)
  {
    WakeupKept(s, u, a);
    ConnectedKept(s, u, a);
    EntriesKept(s, u, a);
    MessagesKept(s, u, a);
    ConnsKept(s, u, a);
  }

  lemma NextSafe(s: State, s': State, u: Setup)
    requires Inv(s, u) && Next(s, s', u)
    ensures Inv(s', u)
  {
    var a :| Enabled(s, u, a) && s' == Apply(s, u, a);
    InvKept(s, u, a);
  }

  lemma StepSafe(tr: seq<State>, u: Setup, i: nat)
    requires Run(tr, u) && 0 < i < |tr| && Inv(tr[i - 1], u)
    ensures Inv(tr[i], u)
  {
    assert Follows(tr, i, u);
    NextSafe(tr[i - 1], tr[i], u);
  }

  lemma {:induction false} RunSafe(tr: seq<State>, u: Setup, i: nat)
    requires Run(tr, u) && i < |tr|
    ensures Inv(tr[i], u)
  {
    if i > 0 {
      RunSafe(tr, u, i - 1);
      StepSafe(tr, u, i);
    }
  }

  /** If Run waits while the queue holds an entry, it has been or will be notified. */
  lemma NoLostWakeup(tr: seq<State>, u: Setup, i: nat)
    requires Run(tr, u) && i < |tr|
    ensures tr[i].pc.Waiting? && tr[i].history.queue != [] ==> tr[i].notified || tr[i].notifying != {}
  {
    RunSafe(tr, u, i);
  }

  /** A batch is rendered, and so handed to a connection, only when all messages before it went out. */
  lemma BatchesGoOutInOrder(tr: seq<State>, u: Setup, i: nat)
    requires Run(tr, u) && i < |tr|
    ensures var s := tr[i];
      && (s.pc.Encoding? || s.pc.FlushEncoding? ==> s.done == |s.forwarded|)
      && |s.forwarded| - s.done <= |s.batch| <= MAX_BATCH
      && forall c :: 0 <= c < |s.conns| ==> s.conns[c].limit <= |s.forwarded|
  {
    RunSafe(tr, u, i);
  }

  lemma {:induction false} ChainOrder(conns: seq<Conn>, done: nat, c: nat, d: nat)
    requires Chain(conns, done) && c < d < |conns|
    requires forall k :: 0 <= k < |conns| ==> conns[k].start <= conns[k].good
    ensures conns[c].good <= conns[d].start
  {
    if c < d - 1 {
      ChainOrder(conns, done, c, d - 1);
    }
  }

  /** What r, read from the bytes a TCP connection accepted, should be. */
  predicate IsStretch(r: Stream, c: Conn, forwarded: seq<bytes>) {
    var end := c.start + |r.messages|;
    && r.ok && c.good <= end <= c.limit <= |forwarded|
    && r.messages == forwarded[c.start..end]
    && (r.rest == [] || (end < c.limit && r.rest < Frame(forwarded[end])))
  }

  lemma SliceIsStretch(r: Stream, c: Conn, forwarded: seq<bytes>, ms: seq<bytes>)
    requires c.start <= c.good <= c.limit <= |forwarded| && ms == forwarded[c.start..c.limit]
    requires r.ok && c.good - c.start <= |r.messages| <= |ms| && r.messages == ms[..|r.messages|]
    requires r.rest == [] || (|r.messages| < |ms| && r.rest < Frame(ms[|r.messages|]))
    ensures IsStretch(r, c, forwarded)
  {
    assert |r.messages| < |ms| ==> ms[|r.messages|] == forwarded[c.start + |r.messages|];
  }

  lemma StreamReadsStretch(c: Conn, forwarded: seq<bytes>)
    requires ConnOk(c, Tcp, forwarded) && NonEmpty(forwarded)
    ensures IsStretch(ReadFrames(c.stream), c, forwarded)
  {
    var ms := forwarded[c.start..c.limit];
    assert ms[..c.good - c.start] == forwarded[c.start..c.good];
    CoversWhole(ms, c.stream, c.good - c.start);
    SliceIsStretch(ReadFrames(c.stream), c, forwarded, ms);
  }

  /**
   * TCP: the bytes a connection accepted read as a contiguous stretch of the forwarded messages,
   * with at most one incomplete message behind it. The stretch covers what was sent with success and
   * at most one batch more.
   */
  lemma ConnectionsAcceptStretches(tr: seq<State>, u: Setup, i: nat, c: nat)
    requires Run(tr, u) && u.net.Tcp? && i < |tr| && c < |tr[i].conns|
    ensures IsStretch(ReadFrames(tr[i].conns[c].stream), tr[i].conns[c], tr[i].forwarded)
    ensures tr[i].conns[c].limit <= tr[i].conns[c].good + MAX_BATCH
  {
    RunSafe(tr, u, i);
    StreamReadsStretch(tr[i].conns[c], tr[i].forwarded);
  }

  /** UDP: the datagrams a socket accepted are a contiguous stretch of the forwarded messages. */
  lemma DatagramsAreStretches(tr: seq<State>, u: Setup, i: nat, c: nat)
    requires Run(tr, u) && u.net.Udp? && i < |tr| && c < |tr[i].conns|
    ensures var k, fw := tr[i].conns[c], tr[i].forwarded;
      && k.good <= k.start + |k.datagrams| <= k.limit <= |fw|
      && k.datagrams == fw[k.start..k.start + |k.datagrams|]
  {
    RunSafe(tr, u, i);
  }

  /** The messages the peer of a connection got. */
  function Received(c: Conn, net: Net): seq<bytes> {
    if net.Tcp? then ReadFrames(c.stream).messages else c.datagrams
  }

  lemma ReceivedAreForwarded(k: Conn, net: Net, forwarded: seq<bytes>)
    requires ConnOk(k, net, forwarded) && NonEmpty(forwarded)
    ensures var n := |Received(k, net)|;
      k.start + n <= |forwarded| && Received(k, net) == forwarded[k.start..k.start + n]
  {
    if net.Tcp? {
      StreamReadsStretch(k, forwarded);
    }
  }

  lemma MessagesSlice(es: seq<Entry>, aliases: seq<bytes>, u: Setup, from: nat, to: nat)
    requires |aliases| == |es| && from <= to <= |es|
    ensures Messages(es, aliases, u)[from..to] == Messages(es[from..to], aliases[from..to], u)
  {
  }

  /** No printed time holds a space. */
  ghost predicate SpaceFree(clock: TimePrinter) {
    forall ms :: SP !in clock(ms)
  }

  /** What Parse should make of a message rendered from e. */
  function Reading(e: Entry, u: Setup, read: TimeReader): Message {
    var src := u.source(e.sourceId);
    Message(Severity(e.level), ReadTime(u.clock(e.timestampMs), read), NilValue(NameField(src.instance, MAX_HOSTNAME)),
            NilValue(NameField(src.component, MAX_APP_NAME)), TrimPrefix(Text(e.message), BOM))
  }

  /** Parse takes each of the messages, and it says what the entry at its place says. */
  ghost predicate ReadAs(ms: seq<bytes>, es: seq<Entry>, u: Setup, read: TimeReader) {
    |ms| == |es| && forall j :: 0 <= j < |ms| ==> ParseMessage(ms[j], read) == Some(Reading(es[j], u, read))
  }

  lemma MessageIsRead(e: Entry, alias: bytes, u: Setup, read: TimeReader)
    requires SpaceFree(u.clock)
    ensures ParseMessage(Format(e, u.source(e.sourceId), alias, u.clock), read) == Some(Reading(e, u, read))
  {
    RoundTrip.ParseAfterFormat(e, u.source(e.sourceId), alias, u.clock, read);
  }

  lemma MessagesAreRead(es: seq<Entry>, aliases: seq<bytes>, u: Setup, read: TimeReader)
    requires |aliases| == |es| && SpaceFree(u.clock)
    ensures ReadAs(Messages(es, aliases, u), es, u, read)
  {
    forall j | 0 <= j < |es| ensures ParseMessage(Messages(es, aliases, u)[j], read) == Some(Reading(es[j], u, read)) {
      MessageIsRead(es[j], aliases[j], u, read);
    }
  }

  /** The stretch of the senders that the peer of a connection got. */
  predicate IsCarried(k: Conn, net: Net, senders: seq<Entry>, es: seq<Entry>) {
    var n := |Received(k, net)|;
    k.start + n <= |senders| && es == senders[k.start..k.start + n]
  }

  lemma CarriedIsRead(k: Conn, senders: seq<Entry>, aliases: seq<bytes>, u: Setup, read: TimeReader) returns (es: seq<Entry>)
    requires |aliases| == |senders| && ConnOk(k, u.net, Messages(senders, aliases, u)) && SpaceFree(u.clock)
    ensures IsCarried(k, u.net, senders, es) && ReadAs(Received(k, u.net), es, u, read)
  {
    MessagesAreNonEmpty(senders, aliases, u);
    ReceivedAreForwarded(k, u.net, Messages(senders, aliases, u));
    var end := k.start + |Received(k, u.net)|;
    es := senders[k.start..end];
    MessagesSlice(senders, aliases, u, k.start, end);
    MessagesAreRead(es, aliases[k.start..end], u, read);
  }

  /**
   * At any time Parse takes every message a peer got over a connection, and it says what the entry it was
   * rendered from says: these entries are a contiguous stretch of all rendered ones.
   */
  lemma PeersReadSenders(tr: seq<State>, u: Setup, i: nat, c: nat, read: TimeReader) returns (es: seq<Entry>)
    requires Run(tr, u) && i < |tr| && c < |tr[i].conns| && SpaceFree(u.clock)
    ensures IsCarried(tr[i].conns[c], u.net, tr[i].senders, es)
    ensures ReadAs(Received(tr[i].conns[c], u.net), es, u, read)
  {
    RunSafe(tr, u, i);
    es := CarriedIsRead(tr[i].conns[c], tr[i].senders, tr[i].aliases, u, read);
  }

  /** A later connection repeats at most one batch of what an earlier one was handed, and misses nothing. */
  lemma ReconnectRepeatsAtMostABatch(tr: seq<State>, u: Setup, i: nat, c: nat, d: nat)
    requires Run(tr, u) && i < |tr| && c < d < |tr[i].conns|
    ensures tr[i].conns[c].limit <= tr[i].conns[d].start + MAX_BATCH
    ensures d == c + 1 ==> tr[i].conns[d].start == tr[i].conns[c].good
  {
    RunSafe(tr, u, i);
    ChainOrder(tr[i].conns, tr[i].done, c, d);
  }

  lemma {:induction false} ChainCovers(conns: seq<Conn>, done: nat, m: nat)
    requires Chain(conns, done) && m < done
    ensures exists c :: 0 <= c < |conns| && conns[c].start <= m < conns[c].good
    decreases |conns|
  {
    var last := conns[|conns| - 1];
    if m < last.start {
      var before := conns[..|conns| - 1];
      assert Chain(before, last.start);
      ChainCovers(before, last.start, m);
      var c :| 0 <= c < |before| && before[c].start <= m < before[c].good;
      assert conns[c] == before[c];
    }
  }

  /** Every message counted as done went out over some connection in a send that returned nil. */
  lemma DoneMeansAccepted(tr: seq<State>, u: Setup, i: nat, m: nat)
    requires Run(tr, u) && i < |tr| && m < tr[i].done
    ensures exists c :: 0 <= c < |tr[i].conns| && tr[i].conns[c].start <= m < tr[i].conns[c].good
  {
    RunSafe(tr, u, i);
    ChainCovers(tr[i].conns, tr[i].done, m);
  }

  lemma {:induction false} OutcomesAddUp(ss: seq<Settled>)
    ensures |With(ss, Written)| + |With(ss, Skipped)| == |ss|
  {
    if ss != [] {
      OutcomesAddUp(ss[..|ss| - 1]);
    }
  }

  /**
   * Where every offered entry is, at any time and so when Run has returned: written, skipped by
   * encode, evicted, still queued, or in the one batch in hand, which a return discards.
   */
  lemma EveryEntryAccounted(tr: seq<State>, u: Setup, i: nat)
    requires Run(tr, u) && i < |tr|
    ensures var s := tr[i];
      && s.history.offered == EntriesOf(s.history.removed) + s.history.queue
      && Only(s.history.removed, Taken) == SettledEntries(s.settled) + s.batch
      && s.done <= |s.senders| && With(s.settled, Written) == s.senders[..s.done]
      && |s.batch| <= MAX_BATCH
      && |s.history.offered| == |With(s.settled, Written)| + |With(s.settled, Skipped)|
           + |Only(s.history.removed, Evicted)| + |s.history.queue| + |s.batch|
  {
    RunSafe(tr, u, i);
    HistoryMeaning(tr[i].history, u.cap);
    OutcomesAddUp(tr[i].settled);
  }

  /** Run flushes and returns only after its context was cancelled. */
  lemma ReturnsOnlyWhenCancelled(tr: seq<State>, u: Setup, i: nat)
    requires Run(tr, u) && i < |tr|
    ensures tr[i].pc.Done? || tr[i].pc.FlushTaking? || tr[i].pc.FlushEncoding? || tr[i].pc.FlushSending? ==> tr[i].cancelled
  {
    RunSafe(tr, u, i);
  }

  /** After a clean return nothing was discarded, and what is queued are the last entries offered since. */
  lemma CleanReturn(tr: seq<State>, u: Setup, i: nat)
    requires Run(tr, u) && i < |tr| && tr[i].pc == Done(true)
    ensures tr[i].batch == []
    ensures IsSuffix(tr[i].history.queue, tr[i].late)
  {
    RunSafe(tr, u, i);
  }

  /** A flush over a live connection can only end unclean by a failed write. */
  lemma FlushEndsClean(tr: seq<State>, u: Setup, i: nat, a: Action)
    requires Run(tr, u) && i < |tr| && Enabled(tr[i], u, a)
    requires Apply(tr[i], u, a).pc == Done(false) && tr[i].pc != Done(false)
    ensures a.SendErr? || !tr[i].connected
  {
    RunSafe(tr, u, i);
  }
}
