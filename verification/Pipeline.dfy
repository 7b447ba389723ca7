/**
 * The writer and the forwarder together: the writer's tap is Forwarder.Offer
 * (cmd/hannah-logcollector/main.go), so the call of the tap is the step that enqueues the entry.
 */
module Pipeline {
  import opened Records
  import opened SyslogParse
  import opened ForwardQueue
  import opened Subsequences
  import W = Writer
  import D = Delivery

  datatype State = State(writer: W.State, forward: D.State)

  const INIT := State(W.INIT, D.INIT)

  /** A step of the writer, its producers or its Sync callers that does not call the tap. */
  ghost predicate WriterStep(s: State, s': State, size: nat) {
    exists a: W.Action :: !a.CallTap? && W.Enabled(s.writer, size, a) && s' == s.(writer := W.Apply(s.writer, size, a))
  }

  /** A step of the forwarder that is not the enqueue of an Offer. */
  ghost predicate ForwardStep(s: State, s': State, u: D.Setup)
  {
    exists a: D.Action ::
      !a.OfferEnqueue? && D.Enabled(s.forward, u, a) && s' == s.(forward := D.Apply(s.forward, u, a))
  }

  /** A producer whose entry was accepted hands it to the forwarder. */
  ghost predicate TapStep(s: State, s': State, size: nat, u: D.Setup, who: int)
  {
    && W.Enabled(s.writer, size, W.CallTap(who))
    && D.Enabled(s.forward, u, D.OfferEnqueue(who, s.writer.tapping[who]))
    && s' == State(W.Apply(s.writer, size, W.CallTap(who)),
                   D.Apply(s.forward, u, D.OfferEnqueue(who, s.writer.tapping[who])))
  }

  ghost predicate Next(s: State, s': State, size: nat, u: D.Setup)
  {
    WriterStep(s, s', size) || ForwardStep(s, s', u) || exists who :: TapStep(s, s', size, u, who)
  }

  /** The i-th state comes from the one before by one step. */
  ghost predicate Follows(tr: seq<State>, i: nat, size: nat, u: D.Setup)
    requires 0 < i < |tr|
  {
    Next(tr[i - 1], tr[i], size, u)
  }

  ghost predicate Run(tr: seq<State>, size: nat, u: D.Setup) {
    && tr != [] && tr[0] == INIT
    && forall i :: 0 < i < |tr| ==> Follows(tr, i, size, u)
  }

  ghost predicate Inv(s: State, u: D.Setup) {
    W.Inv(s.writer) && D.Inv(s.forward, u) && s.forward.history.offered == W.Entries(s.writer.tapped)
  }

  lemma ForwardKept(s: D.State, u: D.Setup, a: D.Action)
    requires D.Inv(s, u) && D.Enabled(s, u, a)
    ensures D.Inv(D.Apply(s, u, a), u)
    ensures !a.OfferEnqueue? ==> D.Apply(s, u, a).history.offered == s.history.offered
  {
    D.InvKept(s, u, a);
  }

  lemma InvKept(s: State, s': State, size: nat, u: D.Setup)
    requires Inv(s, u) && Next(s, s', size, u)
    ensures Inv(s', u)
  {
    if WriterStep(s, s', size) {
      var a: W.Action :| !a.CallTap? && W.Enabled(s.writer, size, a) && s' == s.(writer := W.Apply(s.writer, size, a));
      W.InvKept(s.writer, size, a);
    } else if ForwardStep(s, s', u) {
      var a: D.Action :| !a.OfferEnqueue? && D.Enabled(s.forward, u, a)
        && s' == s.(forward := D.Apply(s.forward, u, a));
      ForwardKept(s.forward, u, a);
    } else {
      var who :| TapStep(s, s', size, u, who);
      W.InvKept(s.writer, size, W.CallTap(who));
      ForwardKept(s.forward, u, D.OfferEnqueue(who, s.writer.tapping[who]));
      assert W.Entries(s'.writer.tapped) == W.Entries(s.writer.tapped) + [s.writer.tapping[who]];
    }
  }

  lemma {:induction false} RunSafe(tr: seq<State>, size: nat, u: D.Setup, i: nat)
    requires Run(tr, size, u) && i < |tr|
    ensures Inv(tr[i], u)
  {
    if i > 0 {
      RunSafe(tr, size, u, i - 1);
      assert Follows(tr, i, size, u);
      InvKept(tr[i - 1], tr[i], size, u);
    }
  }

  // --- Order end to end -----------------------------------------------------------------------

  lemma {:induction false} WrittenPicks(ss: seq<D.Settled>) returns (at: seq<nat>)
    ensures Picks(at, D.With(ss, D.Written), D.SettledEntries(ss))
  {
    if ss == [] {
      at := [];
    } else {
      var init := ss[..|ss| - 1];
      at := WrittenPicks(init);
      PicksOneMore(at, D.With(init, D.Written), D.SettledEntries(init), ss[|ss| - 1].entry);
      assert D.SettledEntries(ss) == D.SettledEntries(init) + [ss[|ss| - 1].entry];
      if ss[|ss| - 1].outcome == D.Written {
        at := at + [|ss| - 1];
      }
    }
  }

  /** The entries behind the first done senders are picked from the batch in hand. */
  lemma RestPicks(s: D.State) returns (at: seq<nat>)
    requires s.done <= |s.senders| && D.SendersRest(s)
    ensures Picks(at, s.senders[s.done..], s.batch)
  {
    if s.senders[s.done..] == [] {
      at := [];
    } else {
      at := KeptPositions(s.batch, s.kept);
    }
  }

  /** The entries rendered so far are a subsequence of the offered ones. */
  lemma SendersOfOffered(s: D.State, cap: nat) returns (at: seq<nat>)
    requires D.EntriesInv(s, cap)
    ensures Picks(at, s.senders, s.history.offered)
  {
    var written := WrittenPicks(s.settled);
    var rest := RestPicks(s);
    var taken := Only(s.history.removed, Taken);
    at := PicksAppend(written, s.senders[..s.done], D.SettledEntries(s.settled), rest, s.senders[s.done..], s.batch);
    assert s.senders[..s.done] + s.senders[s.done..] == s.senders;
    var inRemoved := OnlyPicks(s.history.removed, Taken);
    PicksMore(inRemoved, taken, EntriesOf(s.history.removed), s.history.offered);
    at := ComposePicks(at, s.senders, taken, inRemoved, s.history.offered);
  }

  /** Of the entries at the given positions, those of one producer. */
  function OwnedBy(at: seq<nat>, gs: seq<W.Given>, who: int): seq<Entry> {
    if at == [] then []
    else
      var p := at[|at| - 1];
      OwnedBy(at[..|at| - 1], gs, who) + if p < |gs| && gs[p].who == who then [gs[p].entry] else []
  }

  ghost predicate Increasing(at: seq<nat>, bound: nat) {
    (forall i :: 0 <= i < |at| ==> at[i] < bound) && forall i, j :: 0 <= i < j < |at| ==> at[i] < at[j]
  }

  lemma {:induction false} ByPrefix(gs: seq<W.Given>, p: nat, who: int)
    requires p <= |gs|
    ensures W.By(gs[..p], who) <= W.By(gs, who)
    decreases |gs| - p
  {
    if p == |gs| {
      assert gs[..p] == gs;
    } else {
      ByPrefix(gs, p + 1, who);
      assert gs[..p + 1][..p] == gs[..p];
    }
  }

  lemma {:induction false} OwnedOfPrefix(at: seq<nat>, gs: seq<W.Given>, p: nat, who: int)
    requires p <= |gs| && Increasing(at, p)
    ensures OwnedBy(at, gs[..p], who) == OwnedBy(at, gs, who)
  {
    if at != [] {
      OwnedOfPrefix(at[..|at| - 1], gs, p, who);
    }
  }

  /** Picking from a producer-tagged sequence picks, per producer, from its own entries. */
  lemma {:induction false} OwnedPicks(at: seq<nat>, gs: seq<W.Given>, who: int) returns (own: seq<nat>)
    requires Increasing(at, |gs|)
    ensures Picks(own, OwnedBy(at, gs, who), W.By(gs, who))
    decreases |at|
  {
    if at == [] {
      own := [];
    } else {
      var init, p := at[..|at| - 1], at[|at| - 1];
      var front := gs[..p];
      own := OwnedPicks(init, front, who);
      OwnedOfPrefix(init, gs, p, who);
      ByPrefix(gs, p, who);
      PicksMore(own, OwnedBy(init, gs, who), W.By(front, who), W.By(gs, who));
      if gs[p].who == who {
        ByPrefix(gs, p + 1, who);
        assert gs[..p + 1][..p] == front;
        assert W.By(gs[..p + 1], who) == W.By(front, who) + [gs[p].entry];
        own := own + [|W.By(front, who)|];
      }
    }
  }

  /** The positions of rendered entries among those tapped, and what they say of each producer. */
  lemma OrderOfSenders(s: State, u: D.Setup, from: nat, to: nat, who: int) returns (at: seq<nat>)
    requires Inv(s, u) && from <= to <= |s.forward.senders|
    ensures Picks(at, s.forward.senders[from..to], W.Entries(s.writer.tapped))
    ensures Subsequence(OwnedBy(at, s.writer.tapped, who), W.By(s.writer.accepted, who))
  {
    var all := SendersOfOffered(s.forward, u.cap);
    at := all[from..to];
    PicksSlice(all, s.forward.senders, s.forward.history.offered, from, to);
    var own := OwnedPicks(at, s.writer.tapped, who);
    PicksMore(own, OwnedBy(at, s.writer.tapped, who), W.By(s.writer.tapped, who), W.By(s.writer.accepted, who));
  }

  /**
   * Order among what counts as sent, with any number of producers, failed connections and evictions:
   * these are entries the writer accepted, each producer's in the order its calls of Add were accepted,
   * none twice.
   */
  lemma EachProducerInOrder(tr: seq<State>, size: nat, u: D.Setup, i: nat, who: int) returns (at: seq<nat>)
    requires Run(tr, size, u) && i < |tr|
    ensures var s := tr[i];
      && s.forward.done <= |s.forward.senders|
      && Picks(at, s.forward.senders[..s.forward.done], W.Entries(s.writer.tapped))
      && Subsequence(OwnedBy(at, s.writer.tapped, who), W.By(s.writer.accepted, who))
  {
    RunSafe(tr, size, u, i);
    at := OrderOfSenders(tr[i], u, 0, tr[i].forward.done, who);
  }

  /**
   * End to end, from Add to the peer of any one connection: Parse takes every message the peer got, and it
   * says what an accepted entry says; the entries stand in the order the tap saw them, each producer's in
   * the order its calls of Add were accepted, and none twice. Only another connection may bring some of them again.
   */
  lemma EachConnectionInOrder(tr: seq<State>, size: nat, u: D.Setup, i: nat, c: nat, who: int, read: TimeReader)
    returns (es: seq<Entry>, at: seq<nat>)
    requires Run(tr, size, u) && i < |tr| && c < |tr[i].forward.conns| && D.SpaceFree(u.clock)
    ensures var s := tr[i];
      && D.IsCarried(s.forward.conns[c], u.net, s.forward.senders, es)
      && D.ReadAs(D.Received(s.forward.conns[c], u.net), es, u, read)
      && Picks(at, es, W.Entries(s.writer.tapped))
      && Subsequence(OwnedBy(at, s.writer.tapped, who), W.By(s.writer.accepted, who))
  {
    RunSafe(tr, size, u, i);
    var s := tr[i].forward;
    es := D.CarriedIsRead(s.conns[c], s.senders, s.aliases, u, read);
    at := OrderOfSenders(tr[i], u, s.conns[c].start, s.conns[c].start + |es|, who);
  }
}
