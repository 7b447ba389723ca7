/** Octet counting (RFC 6587, section 3.4.1): the stream Frame writes, and a receiver's reader. */
module Framing {
  import opened Bytes
  import opened SyslogFormat

  /** The stream of several frames. */
  function Frames(messages: seq<bytes>): bytes {
    if messages == [] then [] else Frame(messages[0]) + Frames(messages[1..])
  }

  predicate NonEmpty(messages: seq<bytes>) {
    forall i :: 0 <= i < |messages| ==> messages[i] != []
  }

  /** What a receiver made of a stream: whole messages, the bytes left over, and whether those can become a frame. */
  datatype Stream = Stream(messages: seq<bytes>, rest: bytes, ok: bool)

  function DigitCount(s: bytes): (n: nat)
    ensures n <= |s| && AllDigits(s[..n])
    ensures n < |s| ==> !IsDigit(s[n])
  {
    if s != [] && IsDigit(s[0]) then 1 + DigitCount(s[1..]) else 0
  }

  datatype FrameRead = Complete(message: bytes, rest: bytes) | Partial | Garbage

  /** MSG-LEN SP MSG, where MSG-LEN is a number without leading zero. */
  function ReadFrame(s: bytes): (r: FrameRead)
    ensures r.Complete? ==> |r.rest| < |s|
  {
    var n := DigitCount(s);
    if s != [] && (n == 0 || s[0] == ZERO) then Garbage
    else if n == |s| then Partial
    else if s[n] != SP then Garbage
    else
      var len := Value(s[..n]);
      if |s| < n + 1 + len then Partial else Complete(s[n + 1..n + 1 + len], s[n + 1 + len..])
  }

  function ReadFrames(s: bytes): Stream
    decreases |s|
  {
    match ReadFrame(s)
    case Complete(m, rest) =>
      var r := ReadFrames(rest);
      Stream([m] + r.messages, r.rest, r.ok)
    case Partial => Stream([], s, true)
    case Garbage => Stream([], s, false)
  }

  lemma {:induction false} DigitCountOf(d: bytes, rest: bytes)
    requires AllDigits(d)
    requires rest != [] ==> !IsDigit(rest[0])
    ensures DigitCount(d + rest) == |d|
  {
    if d == [] {
      assert d + rest == rest;
    } else {
      assert (d + rest)[1..] == d[1..] + rest;
      DigitCountOf(d[1..], rest);
    }
  }

  lemma ReadWholeFrame(m: bytes, rest: bytes)
    requires m != []
    ensures ReadFrame(Frame(m) + rest) == Complete(m, rest)
  {
    var d := Digits(|m|);
    DigitsRoundTrip(|m|);
    var s := Frame(m) + rest;
    assert s == d + ([SP] + m + rest);
    DigitCountOf(d, [SP] + m + rest);
    assert s[..|d|] == d && s[|d|] == SP;
    assert s[|d| + 1..|d| + 1 + |m|] == m;
    assert s[|d| + 1 + |m|..] == rest;
  }

  lemma ReadCutFrame(m: bytes, p: bytes)
    requires m != [] && p < Frame(m)
    ensures ReadFrame(p) == Partial
  {
    var d := Digits(|m|);
    DigitsRoundTrip(|m|);
    assert Frame(m) == d + [SP] + m;
    if |p| <= |d| {
      assert p == d[..|p|];
      DigitCountOf(p, []);
      assert p + [] == p;
    } else {
      var tail := p[|d|..];
      assert p == d + tail && tail[0] == SP;
      DigitCountOf(d, tail);
      assert p[..|d|] == d;
    }
  }

  /**
   * What a reader that got the bytes p of the stream of ms should make of them: the messages that
   * are complete in p, in order, and less than one frame as the rest.
   */
  predicate ReadsAsPrefix(ms: seq<bytes>, p: bytes) {
    var r := ReadFrames(p);
    && r.ok && r.messages <= ms
    && p == Frames(r.messages) + r.rest
    && (if r.messages == ms then r.rest == [] else r.rest < Frame(ms[|r.messages|]))
  }

  lemma FramesCons(m: bytes, ms: seq<bytes>)
    ensures Frames([m] + ms) == Frame(m) + Frames(ms)
  {
    assert ([m] + ms)[1..] == ms;
  }

  lemma Associative(a: bytes, b: bytes, c: bytes)
    ensures a + (b + c) == a + b + c
  {
  }

  lemma PrefixCons(m: bytes, a: seq<bytes>, b: seq<bytes>)
    requires a <= b
    ensures [m] + a <= [m] + b
    ensures [m] + a == [m] + b ==> a == b
    ensures a != b ==> ([m] + b)[1 + |a|] == b[|a|]
  {
    assert a == b[..|a|];
    assert [m] + a == ([m] + b)[..1 + |a|];
    assert ([m] + a)[1..] == a && ([m] + b)[1..] == b;
  }

  lemma PrefixStep(m: bytes, ms: seq<bytes>, rest: bytes)
    requires m != [] && ReadsAsPrefix(ms, rest)
    ensures ReadsAsPrefix([m] + ms, Frame(m) + rest)
  {
    var r := ReadFrames(rest);
    assert ReadFrames(Frame(m) + rest) == Stream([m] + r.messages, r.rest, r.ok) by {
      ReadWholeFrame(m, rest);
    }
    assert Frame(m) + rest == Frames([m] + r.messages) + r.rest by {
      FramesCons(m, r.messages);
      Associative(Frame(m), Frames(r.messages), r.rest);
    }
    PrefixCons(m, r.messages, ms);
  }

  lemma BeyondFirstFrame(ms: seq<bytes>, p: bytes)
    requires ms != [] && p <= Frames(ms) && |Frame(ms[0])| <= |p|
    ensures p == Frame(ms[0]) + p[|Frame(ms[0])|..] && p[|Frame(ms[0])|..] <= Frames(ms[1..])
  {
    var f, all := Frame(ms[0]), Frames(ms);
    assert all == f + Frames(ms[1..]);
    assert p == all[..|p|];
    assert p[..|f|] == f;
    assert p[|f|..] == Frames(ms[1..])[..|p| - |f|];
  }

  lemma FirstFrame(ms: seq<bytes>)
    ensures ms != [] ==> Frame(ms[0]) <= Frames(ms)
  {
  }

  /** Octet counting is uniquely decodable, from any byte prefix of the stream. */
  lemma {:induction false} ReadPrefix(ms: seq<bytes>, p: bytes)
    requires NonEmpty(ms) && p <= Frames(ms)
    ensures ReadsAsPrefix(ms, p)
  {
    if ms == [] {
      assert ReadFrame([]) == Partial;
    } else if |p| < |Frame(ms[0])| {
      assert p < Frame(ms[0]) by { FirstFrame(ms); }
      ReadCutFrame(ms[0], p);
    } else {
      var rest := p[|Frame(ms[0])|..];
      assert p == Frame(ms[0]) + rest && rest <= Frames(ms[1..]) by { BeyondFirstFrame(ms, p); }
      ReadPrefix(ms[1..], rest);
      assert ms == [ms[0]] + ms[1..];
      PrefixStep(ms[0], ms[1..], rest);
    }
  }

  lemma {:induction false} FramesAppend(a: seq<bytes>, b: seq<bytes>)
    ensures Frames(a + b) == Frames(a) + Frames(b)
  {
    if a == [] {
      assert a + b == b;
    } else {
      FramesAppend(a[1..], b);
      FramesCons(a[0], a[1..] + b);
      assert [a[0]] + (a[1..] + b) == a + b;
      Associative(Frame(a[0]), Frames(a[1..]), Frames(b));
    }
  }

  lemma FramesLast(ms: seq<bytes>, m: bytes)
    ensures Frames(ms + [m]) == Frames(ms) + Frame(m)
  {
    FramesAppend(ms, [m]);
    FramesCons(m, []);
    assert [m] + [] == [m];
    assert Frame(m) + Frames([]) == Frame(m);
  }

  lemma FramesSplit(ms: seq<bytes>, k: nat)
    requires k <= |ms|
    ensures Frames(ms) == Frames(ms[..k]) + Frames(ms[k..])
  {
    var a, b := ms[..k], ms[k..];
    assert a + b == ms;
    assert Frames(a + b) == Frames(a) + Frames(b) by { FramesAppend(a, b); }
  }

  /** Reading the whole stream gives exactly the list that was framed. */
  lemma ReadAll(ms: seq<bytes>)
    requires NonEmpty(ms)
    ensures ReadFrames(Frames(ms)) == Stream(ms, [], true)
  {
    ReadPrefix(ms, Frames(ms));
    var r := ReadFrames(Frames(ms));
    var k := |r.messages|;
    assert ms[..k] == r.messages;
    FramesSplit(ms, k);
    assert Frames(ms[k..]) == r.rest;
    FirstFrame(ms[k..]);
  }

  /** A digit string without leading zero is how its value prints. */
  lemma {:induction false} DigitsOfValue(d: bytes)
    requires d != [] && AllDigits(d) && d[0] != ZERO
    ensures Value(d) > 0 && Digits(Value(d)) == d
  {
    var front := d[..|d| - 1];
    assert d == front + [d[|d| - 1]];
    if front == [] {
      assert Value(front) == 0;
    } else {
      DigitsOfValue(front);
    }
  }

  /** A frame that was read is the frame of its message. */
  lemma ReadFrameInverse(s: bytes)
    requires ReadFrame(s).Complete?
    ensures s == Frame(ReadFrame(s).message) + ReadFrame(s).rest && ReadFrame(s).message != []
  {
    var n, m := DigitCount(s), ReadFrame(s).message;
    DigitsOfValue(s[..n]);
    assert s[..n] == Itoa(|m|);
    assert s == s[..n] + [SP] + m + ReadFrame(s).rest;
  }

  /** Whatever the stream holds, what was read and what is left make up the stream again. */
  lemma {:induction false} ReadLosesNothing(s: bytes)
    ensures var r := ReadFrames(s); s == Frames(r.messages) + r.rest && NonEmpty(r.messages)
    decreases |s|
  {
    match ReadFrame(s)
    case Complete(m, rest) =>
      var r := ReadFrames(rest);
      ReadFrameInverse(s);
      ReadLosesNothing(rest);
      FramesCons(m, r.messages);
      Associative(Frame(m), Frames(r.messages), r.rest);
    case _ =>
      assert Frames([]) + s == s;
  }

  /** The reader consumes a stream without leftovers exactly when it is a concatenation of frames. */
  lemma {:induction false} DecodableIffFramed(s: bytes)
    ensures ReadFrames(s).rest == [] <==> exists ms :: NonEmpty(ms) && Frames(ms) == s
  {
    ReadLosesNothing(s);
    if ReadFrames(s).rest == [] {
      assert Frames(ReadFrames(s).messages) == s;
    }
    if ms :| NonEmpty(ms) && Frames(ms) == s {
      ReadAll(ms);
    }
  }

  lemma FramesLonger(ms: seq<bytes>, n: nat, m: nat)
    requires n < m <= |ms|
    ensures |Frames(ms[..m])| >= |Frames(ms[..n])| + |Frame(ms[n])|
  {
    FramesSplit(ms[..m], n);
    assert ms[..m][..n] == ms[..n];
    FirstFrame(ms[..m][n..]);
  }

  lemma CoversWhole(ms: seq<bytes>, p: bytes, whole: nat)
    requires NonEmpty(ms) && whole <= |ms| && Frames(ms[..whole]) <= p <= Frames(ms)
    ensures var r := ReadFrames(p); var n := |r.messages|;
      && r.ok && whole <= n <= |ms| && r.messages == ms[..n]
      && (r.rest == [] || (n < |ms| && r.rest < Frame(ms[n])))
  {
    ReadPrefix(ms, p);
    var r := ReadFrames(p);
    assert r.messages == ms[..|r.messages|];
    if |r.messages| < whole {
      FramesLonger(ms, |r.messages|, whole);
    }
  }

  /**
   * What a peer reads once ms were sent behind what it had read before: all of them or, with an error, a first
   * part and less than a frame.
   */
  ghost predicate ReadsOn(before: bytes, after: bytes, ms: seq<bytes>, ok: bool) {
    var was, r := ReadFrames(before).messages, ReadFrames(after);
    && r.ok && was <= r.messages <= was + ms
    && (r.rest == [] || (|r.messages| < |was + ms| && r.rest < Frame((was + ms)[|r.messages|])))
    && (ok ==> r.messages == was + ms && r.rest == [])
  }

  lemma StreamReadsOn(before: bytes, after: bytes, ms: seq<bytes>, ok: bool)
    requires NonEmpty(ms) && ReadFrames(before).rest == []
    requires before <= after <= before + Frames(ms) && (ok ==> after == before + Frames(ms))
    ensures ReadsOn(before, after, ms, ok)
  {
    var was := ReadFrames(before).messages;
    var all := was + ms;
    ReadLosesNothing(before);
    assert before == Frames(was) && NonEmpty(all);
    FramesAppend(was, ms);
    assert all[..|was|] == was;
    CoversWhole(all, after, |was|);
    if ok {
      ReadAll(all);
    }
  }
}
