/**
 * internal/store/writer.go: the goroutine that batches entries, any number of producers and Sync
 * callers around its channel, and the tap.
 */
module Writer {
  import opened Wrappers
  import opened Records
  import opened Subsequences
  import opened Store

  /** A writeRequest. who is the producer; mark is how many entries were accepted before the Sync. */
  datatype Request = Add(who: int, entry: Entry) | Sync(id: int, mark: nat)

  /** One call of InsertEntries. */
  datatype Block = Block(entries: seq<Entry>, ok: bool)

  /** What Run works on: the channel, its batch, the store's entries, and the inserts so far. */
  datatype Core = Core(queue: seq<Request>, batch: seq<Entry>, stored: seq<Entry>, blocks: seq<Block>)

  /** flush; ok is the outcome of the insert, if there is one. */
  function Flush(c: Core, ok: bool): Core {
    if c.batch == [] then c
    else c.(batch := [], stored := if ok then c.stored + c.batch else c.stored, blocks := c.blocks + [Block(c.batch, ok)])
  }

  /** The error flush returns, true for nil. */
  predicate FlushOk(c: Core, ok: bool) {
    c.batch == [] || ok
  }

  /** One request in the main loop. */
  function Receive(c: Core, size: nat, ok: bool): Core
    requires c.queue != []
  {
    var rest := c.(queue := c.queue[1..]);
    match c.queue[0]
    case Add(_, e) =>
      var grown := rest.(batch := c.batch + [e]);
      if |grown.batch| >= size then Flush(grown, ok) else grown
    case Sync(_, _) => Flush(rest, ok)
  }

  /** One request in drain. */
  function DrainOne(c: Core): Core
    requires c.queue != []
  {
    match c.queue[0]
    case Add(_, e) => c.(queue := c.queue[1..], batch := c.batch + [e])
    case Sync(_, _) => c.(queue := c.queue[1..])
  }

  function Queued(q: seq<Request>): seq<Entry> {
    if q == [] then []
    else (if q[0].Add? then [q[0].entry] else []) + Queued(q[1..])
  }

  function SyncIds(q: seq<Request>): seq<int> {
    if q == [] then []
    else (if q[0].Sync? then [q[0].id] else []) + SyncIds(q[1..])
  }

  /** The entries of all inserts, and of those that succeeded. */
  function Tried(bs: seq<Block>): seq<Entry> {
    if bs == [] then [] else Tried(bs[..|bs| - 1]) + bs[|bs| - 1].entries
  }

  function Succeeded(bs: seq<Block>): seq<Entry> {
    if bs == [] then []
    else Succeeded(bs[..|bs| - 1]) + if bs[|bs| - 1].ok then bs[|bs| - 1].entries else []
  }

  predicate NoFailure(bs: seq<Block>) {
    forall i :: 0 <= i < |bs| ==> bs[i].ok
  }

  /** Everything accepted is stored exactly if no insert failed. */
  lemma {:induction false} StoredIffNoFailure(bs: seq<Block>)
    requires forall i :: 0 <= i < |bs| ==> bs[i].entries != []
    ensures Succeeded(bs) == Tried(bs) <==> NoFailure(bs)
    ensures |Succeeded(bs)| <= |Tried(bs)|
    ensures |Succeeded(bs)| == |Tried(bs)| <==> NoFailure(bs)
  {
    if bs != [] {
      var init, last := bs[..|bs| - 1], bs[|bs| - 1];
      StoredIffNoFailure(init);
      assert bs == init + [last];
      assert last.entries != [];
      assert NoFailure(bs) <==> NoFailure(init) && last.ok;
    }
  }

  lemma {:induction false} QueuedAppend(a: seq<Request>, b: seq<Request>)
    ensures Queued(a + b) == Queued(a) + Queued(b)
  {
    if a == [] {
      assert a + b == b;
    } else {
      QueuedAppend(a[1..], b);
      var head := if a[0].Add? then [a[0].entry] else [];
      assert (a + b)[1..] == a[1..] + b;
      assert head + (Queued(a[1..]) + Queued(b)) == head + Queued(a[1..]) + Queued(b);
    }
  }

  // --- The goroutine's state, changed in place ------------------------------------------------

  class BatchWriter {
    const db: Database
    const batchSize: nat
    var requests: seq<Request> // the channel, of capacity batchSize
    var batch: seq<Entry>
    ghost var blocks: seq<Block>

    ghost predicate Valid()
      reads this, db
    {
      db.Valid()
    }

    ghost function View(): Core
      reads this, db
    {
      Core(requests, batch, Rows.EntriesOf(db.entries), blocks)
    }

    constructor (db: Database, batchSize: nat)
      requires db.Valid() && db.entries == []
      ensures this.db == db && this.batchSize == batchSize && Valid() && View() == Core([], [], [], [])
    {
      this.db, this.batchSize := db, batchSize;
      requests, batch, blocks := [], [], [];
      new;
      assert Rows.EntriesOf(db.entries) == [];
    }

    method FlushBatch(dbFails: bool) returns (ok: bool)
      requires Valid()
      modifies this`batch, this`blocks, db`entries
      ensures Valid() && View() == Flush(old(View()), !dbFails) && ok == FlushOk(old(View()), !dbFails)
      ensures batch == [] && requests == old(requests)
      ensures ok <==> View().stored == old(View()).stored + old(batch)
      ensures !ok ==> View().stored == old(View()).stored && dbFails
    {
      if |batch| == 0 {
        return true;
      }
      ok := db.InsertEntries(batch, dbFails);
      blocks := blocks + [Block(batch, ok)];
      batch := [];
    }

    /** The iteration of Run that receives a request; the answer goes to the caller of Sync. */
    method ReceiveOne(dbFails: bool) returns (answer: Option<bool>)
      requires Valid() && requests != []
      modifies this`requests, this`batch, this`blocks, db`entries
      ensures Valid() && View() == Receive(old(View()), batchSize, !dbFails)
      ensures answer == if old(requests)[0].Sync? then Some(FlushOk(old(View()), !dbFails)) else None
      ensures old(requests)[0].Sync? ==>
        && answer.Some? && (answer.value <==> View().stored == old(View()).stored + old(batch))
        && batch == [] && (!answer.value ==> View().stored == old(View()).stored)
      ensures old(requests)[0].Add? ==>
        var grown := old(batch) + [old(requests)[0].entry];
        && answer == None
        && (|grown| < batchSize ==> batch == grown && View().stored == old(View()).stored)
        && (|grown| >= batchSize ==> batch == [] && View().stored == old(View()).stored + if dbFails then [] else grown)
    {
      var req := requests[0];
      requests := requests[1..];
      answer := None;
      match req
      case Add(_, e) =>
        batch := batch + [e];
        if |batch| >= batchSize {
          var _ := FlushBatch(dbFails);
        }
      case Sync(_, _) =>
        var ok := FlushBatch(dbFails);
        answer := Some(ok);
    }

    /** drain: empties the channel into the batch and answers every Sync with nil; inserts nothing. */
    method Drain() returns (answered: seq<int>)
      requires Valid()
      modifies this`requests, this`batch
      ensures Valid() && requests == []
      ensures batch == old(batch) + Queued(old(requests))
      ensures answered == SyncIds(old(requests))
    {
      answered := [];
      while requests != []
        invariant batch + Queued(requests) == old(batch) + Queued(old(requests))
        invariant answered + SyncIds(requests) == SyncIds(old(requests))
        decreases |requests|
      {
        var req := requests[0];
        requests := requests[1..];
        match req
        case Add(_, e) =>
          batch := batch + [e];
        case Sync(id, _) =>
          answered := answered + [id];
      }
    }

    /** The end of Run: drain and a last flush. */
    method Shutdown(dbFails: bool)
      requires Valid()
      modifies this`requests, this`batch, this`blocks, db`entries
      ensures Valid() && requests == [] && batch == []
      ensures !dbFails ==> View().stored == old(View()).stored + old(batch) + Queued(old(requests))
      ensures dbFails ==> View().stored == old(View()).stored
    {
      var _ := Drain();
      var _ := FlushBatch(dbFails);
    }
  }

  // --- Producers, Sync callers and Run as a transition system -----------------------------------

  datatype Pc = Looping | Draining | LastFlush | Stopped

  datatype Given = Given(who: int, entry: Entry)

  datatype State = State(
    core: Core,
    pc: Pc,
    cancelled: bool,
    accepted: seq<Given>, // the entries sent on the channel, in order
    tapped: seq<Given>,
    tapping: map<int, Entry>, // producers between the send and the call of the tap
    late: nat) // entries accepted since drain found the channel empty

  const INIT := State(Core([], [], [], []), Looping, false, [], [], map[], 0)

  datatype Action =
    | SendEntry(who: int, e: Entry)
    | CallTap(who: int)
    | SendSync(id: int)
    | Cancel
    | ReceiveRequest(ok: bool)
    | Tick(ok: bool)
    | NoticeCancel
    | DrainRequest
    | DrainEnds
    | FlushLast(ok: bool)

  predicate Enabled(s: State, size: nat, a: Action) {
    match a
    case SendEntry(who, _) => |s.core.queue| < size && who !in s.tapping
    case CallTap(who) => who in s.tapping
    case SendSync(_) => |s.core.queue| < size
    case Cancel => true
    case ReceiveRequest(_) => s.pc.Looping? && s.core.queue != []
    case Tick(_) => s.pc.Looping?
    case NoticeCancel => s.pc.Looping? && s.cancelled
    case DrainRequest => s.pc.Draining? && s.core.queue != []
    case DrainEnds => s.pc.Draining? && s.core.queue == []
    case FlushLast(_) => s.pc.LastFlush?
  }

  function Apply(s: State, size: nat, a: Action): State
    requires Enabled(s, size, a)
  {
    match a
    case SendEntry(who, e) =>
      s.(core := s.core.(queue := s.core.queue + [Add(who, e)]), accepted := s.accepted + [Given(who, e)],
         tapping := s.tapping[who := e], late := s.late + 1)
    case CallTap(who) =>
      s.(tapped := s.tapped + [Given(who, s.tapping[who])], tapping := s.tapping - {who})
    case SendSync(id) => s.(core := s.core.(queue := s.core.queue + [Sync(id, |s.accepted|)]))
    case Cancel => s.(cancelled := true)
    case ReceiveRequest(ok) => s.(core := Receive(s.core, size, ok))
    case Tick(ok) => s.(core := Flush(s.core, ok))
    case NoticeCancel => s.(pc := Draining)
    case DrainRequest => s.(core := DrainOne(s.core))
    case DrainEnds => s.(pc := LastFlush, late := 0)
    case FlushLast(ok) => s.(core := Flush(s.core, ok), pc := Stopped)
  }

  ghost predicate Next(s: State, s': State, size: nat) {
    exists a :: Enabled(s, size, a) && s' == Apply(s, size, a)
  }

  /** The i-th state comes from the one before by one step. */
  ghost predicate Follows(tr: seq<State>, i: nat, size: nat)
    requires 0 < i < |tr|
  {
    Next(tr[i - 1], tr[i], size)
  }

  ghost predicate Run(tr: seq<State>, size: nat) {
    && tr != [] && tr[0] == INIT
    && forall i :: 0 < i < |tr| ==> Follows(tr, i, size)
  }

  function Entries(gs: seq<Given>): seq<Entry> {
    seq(|gs|, i requires 0 <= i < |gs| => gs[i].entry)
  }

  /** Everything accepted is in an insert, in the batch or still queued, in this order; only failed inserts are missing from the store. */
  ghost predicate Conserved(c: Core, accepted: seq<Entry>) {
    && accepted == Tried(c.blocks) + c.batch + Queued(c.queue)
    && c.stored == Succeeded(c.blocks)
    && forall i :: 0 <= i < |c.blocks| ==> c.blocks[i].entries != []
  }

  /** The mark of a queued Sync counts exactly the entries in front of it. */
  ghost predicate MarksOk(c: Core) {
    forall k :: 0 <= k < |c.queue| && c.queue[k].Sync? ==>
      c.queue[k].mark == |Tried(c.blocks)| + |c.batch| + |Queued(c.queue[..k])|
  }

  ghost predicate CoreInv(c: Core, accepted: seq<Entry>) {
    Conserved(c, accepted) && MarksOk(c)
  }

  lemma FlushKept(c: Core, accepted: seq<Entry>, ok: bool)
    requires CoreInv(c, accepted)
    ensures CoreInv(Flush(c, ok), accepted)
  {
    if c.batch != [] {
      var bs := c.blocks + [Block(c.batch, ok)];
      assert bs[..|bs| - 1] == c.blocks;
      assert Tried(bs) == Tried(c.blocks) + c.batch;
    }
  }

  /** Moving an entry from the channel to the batch, or dropping an answered Sync. */
  lemma DrainOneKept(c: Core, accepted: seq<Entry>)
    requires CoreInv(c, accepted) && c.queue != []
    ensures CoreInv(DrainOne(c), accepted)
  {
    var c' := DrainOne(c);
    forall k | 0 <= k < |c'.queue| && c'.queue[k].Sync?
      ensures c'.queue[k].mark == |Tried(c'.blocks)| + |c'.batch| + |Queued(c'.queue[..k])|
    {
      assert c.queue[..k + 1][1..] == c'.queue[..k];
      assert c.queue[k + 1].Sync?;
    }
  }

  lemma ReceiveKept(c: Core, accepted: seq<Entry>, size: nat, ok: bool)
    requires CoreInv(c, accepted) && c.queue != []
    ensures CoreInv(Receive(c, size, ok), accepted)
  {
    DrainOneKept(c, accepted);
    FlushKept(DrainOne(c), accepted, ok);
  }

  lemma SendKept(c: Core, accepted: seq<Entry>, r: Request)
    requires CoreInv(c, accepted) && (r.Sync? ==> r.mark == |accepted|)
    ensures CoreInv(c.(queue := c.queue + [r]), accepted + if r.Add? then [r.entry] else [])
  {
    var q := c.queue + [r];
    QueuedAppend(c.queue, [r]);
    forall k | 0 <= k < |q| && q[k].Sync? ensures q[k].mark == |Tried(c.blocks)| + |c.batch| + |Queued(q[..k])| {
      assert q[..k] == c.queue[..k];
      assert c.queue[..|c.queue|] == c.queue;
    }
    assert Queued([r]) == if r.Add? then [r.entry] else [];
  }

  /** The entries of one producer, in order. */
  function By(gs: seq<Given>, who: int): seq<Entry> {
    if gs == [] then []
    else By(gs[..|gs| - 1], who) + if gs[|gs| - 1].who == who then [gs[|gs| - 1].entry] else []
  }

  /** By picks exactly the producer's entries. */
  lemma {:induction false} ByPositions(gs: seq<Given>, who: int) returns (at: seq<nat>)
    ensures Picks(at, By(gs, who), Entries(gs)) && IsExactly(at, |gs|, (p: nat) => p < |gs| && gs[p].who == who)
  {
    if gs == [] {
      at := [];
    } else {
      var n := |gs| - 1;
      at := ByPositions(gs[..n], who);
      PicksOneMore(at, By(gs[..n], who), Entries(gs[..n]), gs[n].entry);
      assert Entries(gs) == Entries(gs[..n]) + [gs[n].entry];
      ExactlyOneMore(at, n, (p: nat) => p < |gs[..n]| && gs[..n][p].who == who, (p: nat) => p < |gs| && gs[p].who == who);
      if gs[n].who == who {
        at := at + [n];
      }
    }
  }

  /** Per producer the tap has seen what was accepted, but for an entry whose tap is still to be called. */
  ghost predicate TapInv(s: State) {
    forall who :: By(s.accepted, who) == By(s.tapped, who) + if who in s.tapping then [s.tapping[who]] else []
  }

  lemma TapKept(s: State, size: nat, a: Action)
    requires TapInv(s) && Enabled(s, size, a)
    ensures TapInv(Apply(s, size, a))
  {
    var s' := Apply(s, size, a);
    forall who ensures By(s'.accepted, who) == By(s'.tapped, who) + if who in s'.tapping then [s'.tapping[who]] else [] {
      if a.SendEntry? {
        assert s'.accepted[..|s.accepted|] == s.accepted;
      } else if a.CallTap? {
        assert s'.tapped[..|s.tapped|] == s.tapped;
      }
    }
  }

  /** After drain only entries accepted since are still queued, and the batch is gone when Run returns. */
  ghost predicate StopInv(s: State) {
    && (s.pc.LastFlush? || s.pc.Stopped? ==> |Queued(s.core.queue)| <= s.late)
    && (s.pc.Stopped? ==> s.core.batch == [])
  }

  lemma StopKept(s: State, size: nat, a: Action)
    requires StopInv(s) && Enabled(s, size, a)
    ensures StopInv(Apply(s, size, a))
  {
    match a
    case SendEntry(who, e) => QueuedAppend(s.core.queue, [Add(who, e)]);
    case SendSync(id) => QueuedAppend(s.core.queue, [Sync(id, |s.accepted|)]);
    case _ =>
  }

  ghost predicate Inv(s: State) {
    CoreInv(s.core, Entries(s.accepted)) && TapInv(s) && StopInv(s)
  }

  lemma InvKept(s: State, size: nat, a: Action)
    requires Inv(s) && Enabled(s, size, a)
    ensures Inv(Apply(s, size, a))
  {
    TapKept(s, size, a);
    StopKept(s, size, a);
    var accepted := Entries(s.accepted);
    match a
    case SendEntry(who, e) =>
      SendKept(s.core, accepted, Add(who, e));
      assert Entries(s.accepted + [Given(who, e)]) == accepted + [e];
    case SendSync(id) =>
      SendKept(s.core, accepted, Sync(id, |s.accepted|));
      assert accepted + [] == accepted;
    case ReceiveRequest(ok) => ReceiveKept(s.core, accepted, size, ok);
    case Tick(ok) => FlushKept(s.core, accepted, ok);
    case DrainRequest => DrainOneKept(s.core, accepted);
    case FlushLast(ok) => FlushKept(s.core, accepted, ok);
    case _ =>
  }

  lemma {:induction false} RunSafe(tr: seq<State>, size: nat, i: nat)
    requires Run(tr, size) && i < |tr|
    ensures Inv(tr[i])
  {
    if i > 0 {
      RunSafe(tr, size, i - 1);
      assert Follows(tr, i, size);
      var a :| Enabled(tr[i - 1], size, a) && tr[i] == Apply(tr[i - 1], size, a);
      InvKept(tr[i - 1], size, a);
    }
  }

  /** While Run loops the batch is not full: it is flushed as soon as it is. */
  ghost predicate NotFull(s: State, size: nat) {
    s.pc.Looping? ==> s.core.batch == [] || |s.core.batch| < size
  }

  lemma NotFullKept(s: State, size: nat, a: Action)
    requires NotFull(s, size) && Enabled(s, size, a)
    ensures NotFull(Apply(s, size, a), size)
  {
  }

  lemma {:induction false} BatchStaysBelowSize(tr: seq<State>, size: nat, i: nat)
    requires Run(tr, size) && i < |tr|
    ensures NotFull(tr[i], size)
  {
    if i > 0 {
      BatchStaysBelowSize(tr, size, i - 1);
      assert Follows(tr, i, size);
      var a :| Enabled(tr[i - 1], size, a) && tr[i] == Apply(tr[i - 1], size, a);
      NotFullKept(tr[i - 1], size, a);
    }
  }

  // --- What the runs guarantee ------------------------------------------------------------------

  /** Nothing accepted is lost or reordered: the store lacks only the batches whose insert failed. */
  lemma Conservation(tr: seq<State>, size: nat, i: nat)
    requires Run(tr, size) && i < |tr|
    ensures var c := tr[i].core;
      && Entries(tr[i].accepted) == Tried(c.blocks) + c.batch + Queued(c.queue)
      && c.stored == Succeeded(c.blocks)
      && (Entries(tr[i].accepted) == c.stored + c.batch + Queued(c.queue) <==> NoFailure(c.blocks))
  {
    RunSafe(tr, size, i);
    var c := tr[i].core;
    StoredIffNoFailure(c.blocks);
    if Entries(tr[i].accepted) == c.stored + c.batch + Queued(c.queue) {
      assert |c.stored| == |Tried(c.blocks)|;
    }
  }

  lemma FlushTries(c: Core, ok: bool)
    ensures Tried(Flush(c, ok).blocks) == Tried(c.blocks) + c.batch
  {
    if c.batch != [] {
      assert (c.blocks + [Block(c.batch, ok)])[..|c.blocks|] == c.blocks;
    }
  }

  /** The answer to a Sync is nil if and only if its flush stored what was in the batch, or failed no insert. */
  lemma SyncAnswer(c: Core, size: nat, ok: bool)
    requires c.queue != [] && c.queue[0].Sync?
    ensures var c' := Receive(c, size, ok);
      && (FlushOk(c, ok) <==> c'.stored == c.stored + c.batch)
      && (NoFailure(c.blocks) ==> (FlushOk(c, ok) <==> NoFailure(c'.blocks)))
  {
    if c.batch != [] {
      var bs := c.blocks + [Block(c.batch, ok)];
      assert bs[|c.blocks|].ok == ok;
    }
  }

  /**
   * When the main loop answers a Sync, every entry accepted before it has been through an insert; all of them
   * are in the store, in order, if and only if no insert has failed so far. The answer is nil if and only if its
   * own flush stored the batch: so if no insert failed before, if and only if the store holds all of them.
   */
  lemma SyncBarrier(tr: seq<State>, size: nat, i: nat, ok: bool)
    requires Run(tr, size) && i < |tr|
    requires tr[i].pc.Looping? && tr[i].core.queue != [] && tr[i].core.queue[0].Sync?
    ensures var mark, c := tr[i].core.queue[0].mark, Receive(tr[i].core, size, ok);
      && mark <= |tr[i].accepted|
      && Tried(c.blocks) == Entries(tr[i].accepted)[..mark]
      && (c.stored == Entries(tr[i].accepted)[..mark] <==> NoFailure(c.blocks))
      && (FlushOk(tr[i].core, ok) <==> c.stored == tr[i].core.stored + tr[i].core.batch)
      && (NoFailure(tr[i].core.blocks) ==> (FlushOk(tr[i].core, ok) <==> c.stored == Entries(tr[i].accepted)[..mark]))
  {
    RunSafe(tr, size, i);
    SyncAnswer(tr[i].core, size, ok);
    var accepted := Entries(tr[i].accepted);
    var c := Receive(tr[i].core, size, ok);
    ReceiveKept(tr[i].core, accepted, size, ok);
    StoredIffNoFailure(c.blocks);
    assert c.batch == [];
    assert tr[i].core.queue[..0] == [];
    FlushTries(tr[i].core.(queue := tr[i].core.queue[1..]), ok);
  }

  /** drain answers nil before the last flush: the promise of Sync then holds only if the batch is empty. */
  lemma DrainedSync(tr: seq<State>, size: nat, i: nat)
    requires Run(tr, size) && i < |tr|
    requires tr[i].pc.Draining? && tr[i].core.queue != [] && tr[i].core.queue[0].Sync?
    ensures var mark, c := tr[i].core.queue[0].mark, tr[i].core;
      && mark <= |tr[i].accepted|
      && Tried(c.blocks) + c.batch == Entries(tr[i].accepted)[..mark]
      && (c.stored == Entries(tr[i].accepted)[..mark] <==> NoFailure(c.blocks) && c.batch == [])
  {
    RunSafe(tr, size, i);
    var c := tr[i].core;
    StoredIffNoFailure(c.blocks);
    assert c.queue[..0] == [];
  }

  /** A run in which Sync returns nil although the entry before it is lost: the timer flushed it in vain. */
  lemma SyncForgetsFailedFlush(e: Entry) returns (tr: seq<State>)
    ensures Run(tr, 500) && |tr| == 5
    ensures var s := tr[4];
      && s.pc.Looping? && s.core.queue == [Sync(7, 1)] && FlushOk(s.core, true)
      && Entries(s.accepted) == [e] && Receive(s.core, 500, true).stored == []
  {
    var s1 := Apply(INIT, 500, SendEntry(1, e));
    var s2 := Apply(s1, 500, ReceiveRequest(true));
    var s3 := Apply(s2, 500, SendSync(7));
    var s4 := Apply(s3, 500, Tick(false));
    tr := [INIT, s1, s2, s3, s4];
    assert Next(INIT, s1, 500) && Next(s1, s2, 500);
    assert Next(s2, s3, 500) && Next(s3, s4, 500);
  }

  /** When Run has returned and no producer sent after drain, everything accepted went through an insert. */
  lemma NothingLeftBehind(tr: seq<State>, size: nat, i: nat)
    requires Run(tr, size) && i < |tr| && tr[i].pc.Stopped? && tr[i].late == 0
    ensures Entries(tr[i].accepted) == Tried(tr[i].core.blocks)
    ensures tr[i].core.stored == Entries(tr[i].accepted) <==> NoFailure(tr[i].core.blocks)
  {
    RunSafe(tr, size, i);
    StoredIffNoFailure(tr[i].core.blocks);
  }

  /**
   * With any number of producers: what the tap saw of one producer is what was accepted of it, in
   * order, but for at most the last entry.
   */
  lemma TapOrder(tr: seq<State>, size: nat, i: nat, who: int)
    requires Run(tr, size) && i < |tr|
    ensures By(tr[i].tapped, who) <= By(tr[i].accepted, who)
    ensures |By(tr[i].accepted, who)| <= |By(tr[i].tapped, who)| + 1
    ensures who !in tr[i].tapping ==> By(tr[i].tapped, who) == By(tr[i].accepted, who)
  {
    RunSafe(tr, size, i);
  }
}
