/** What internal/syslog reads back from what internal/forward printed. */
module RoundTrip {
  import opened Bytes
  import opened Wrappers
  import opened Records
  import opened StructuredData
  import opened SyslogFormat
  import opened SyslogParse

  // --- skipStructuredData over rendered elements ----------------------------------------------

  /** How many backslashes s ends with. */
  function TrailingBackslashes(s: bytes): nat {
    if s == [] || s[|s| - 1] != BACKSLASH then 0 else 1 + TrailingBackslashes(s[..|s| - 1])
  }

  /** The scanner, having read s in pairs, takes the byte behind s for an escaped one. */
  predicate Dangling(s: bytes) {
    if s == [] then false
    else if s[0] == BACKSLASH then |s| == 1 || Dangling(s[2..])
    else Dangling(s[1..])
  }

  /** A byte in front matters only to a string that is all backslashes. */
  lemma {:induction false} TrailingFromFront(s: bytes)
    requires s != []
    ensures TrailingBackslashes(s)
         == if s[0] == BACKSLASH && TrailingBackslashes(s[1..]) == |s| - 1 then |s| else TrailingBackslashes(s[1..])
    ensures TrailingBackslashes(s[1..]) <= |s| - 1
  {
    if |s| > 1 {
      TrailingFromFront(s[..|s| - 1]);
      assert s[..|s| - 1][1..] == s[1..][..|s| - 2];
    }
  }

  lemma {:induction false} DanglingIffOdd(s: bytes)
    ensures Dangling(s) <==> TrailingBackslashes(s) % 2 == 1
  {
    if s != [] {
      TrailingFromFront(s);
      if s[0] == BACKSLASH && |s| > 1 {
        TrailingFromFront(s[1..]);
        assert s[1..][1..] == s[2..];
        DanglingIffOdd(s[2..]);
      } else {
        DanglingIffOdd(s[1..]);
      }
    }
  }

  lemma {:induction false} ScanName(name: bytes, tail: bytes)
    requires tail != [] && forall i :: 0 <= i < |name| ==> IsNameByte(name[i])
    ensures ScanElement(name + tail, false) == ScanElement(if Dangling(name) then tail[1..] else tail, false)
  {
    var s := name + tail;
    if name == [] {
      assert s == tail;
    } else if name[0] == BACKSLASH {
      if |name| == 1 {
        assert s[2..] == tail[1..];
      } else {
        assert s[2..] == name[2..] + tail;
        ScanName(name[2..], tail);
      }
    } else {
      assert s[1..] == name[1..] + tail;
      ScanName(name[1..], tail);
    }
  }

  /** The scanner eats the byte behind a name if and only if the name ends in an odd number of backslashes. */
  lemma ScanOddName(name: bytes, tail: bytes)
    requires tail != [] && forall i :: 0 <= i < |name| ==> IsNameByte(name[i])
    ensures ScanElement(name + tail, false)
         == ScanElement(if TrailingBackslashes(name) % 2 == 1 then tail[1..] else tail, false)
  {
    ScanName(name, tail);
    DanglingIffOdd(name);
  }

  /** Inside the quotes an escaped value never ends the element or the quotes, whatever its bytes. */
  lemma {:induction false} ScanEscaped(v: bytes, tail: bytes)
    ensures ScanElement(Escape(v) + tail, true) == ScanElement(tail, true)
  {
    var s := Escape(v) + tail;
    if v == [] {
      assert s == tail;
    } else {
      ScanEscaped(v[1..], tail);
      var more := Escape(v[1..]) + tail;
      if NeedsEscape(v[0]) {
        assert s == [BACKSLASH, v[0]] + more && s[2..] == more;
      } else {
        assert s == [v[0]] + more && s[1..] == more;
      }
    }
  }

  lemma ScanByte(b: byte, tail: bytes, inQuote: bool)
    requires b != BACKSLASH && b != CLOSE
    ensures ScanElement([b] + tail, inQuote) == ScanElement(tail, if b == QUOTE then !inQuote else inQuote)
  {
    assert ([b] + tail)[1..] == tail;
  }

  lemma ScanParam(p: Param, tail: bytes)
    requires IsName(p.name)
    ensures ScanElement(RenderParam(p) + tail, false) == ScanElement(tail, false)
  {
    var closing := [QUOTE] + tail;
    var value := Escape(p.value) + closing;
    var opening := [QUOTE] + value;
    RenderedParam(p, tail);
    assert [EQ, QUOTE] + value == [EQ] + opening;
    assert Escape(p.value) + [QUOTE] + tail == value;
    ScanByte(SP, p.name + ([EQ] + opening), false);
    ScanName(p.name, [EQ] + opening);
    ScanByte(EQ, opening, false);
    assert ([EQ] + opening)[1..] == opening;
    ScanByte(QUOTE, value, false);
    ScanEscaped(p.value, closing);
    ScanByte(QUOTE, tail, true);
  }

  lemma {:induction false} ScanParams(ps: seq<Param>, tail: bytes)
    requires forall i :: 0 <= i < |ps| ==> IsName(ps[i].name)
    ensures ScanElement(RenderParams(ps) + tail, false) == ScanElement(tail, false)
  {
    if ps == [] {
      assert RenderParams(ps) + tail == tail;
    } else {
      var more := RenderParams(ps[1..]) + tail;
      assert RenderParams(ps) + tail == RenderParam(ps[0]) + more;
      ScanParam(ps[0], more);
      ScanParams(ps[1..], tail);
    }
  }

  /**
   * The scanner takes the closing bracket of the element for an escaped one: the element is an SD-ID
   * alone that ends in an odd number of backslashes, which RFC 5424 allows in a name.
   */
  predicate HidesItsEnd(e: Element) {
    e.params == [] && TrailingBackslashes(e.id) % 2 == 1
  }

  lemma ScanClose(rest: bytes)
    ensures ScanElement([CLOSE] + rest, false) == Some(rest)
  {
    assert ([CLOSE] + rest)[1..] == rest;
  }

  lemma ParamsStart(ps: seq<Param>)
    requires ps != []
    ensures RenderParams(ps) != [] && RenderParams(ps)[0] == SP
  {
    assert RenderParam(ps[0])[0] == SP;
  }

  lemma ScanBehindSpace(s: bytes)
    requires s != [] && s[0] == SP
    ensures ScanElement(s, false) == ScanElement(s[1..], false)
  {
  }

  /** Parameters and the closing bracket, whether or not the space in front of them was eaten. */
  lemma ScanBehindName(ps: seq<Param>, rest: bytes)
    requires ps != [] && forall i :: 0 <= i < |ps| ==> IsName(ps[i].name)
    ensures var tail := RenderParams(ps) + ([CLOSE] + rest);
      ScanElement(tail, false) == ScanElement(tail[1..], false) == Some(rest)
  {
    var end := [CLOSE] + rest;
    ScanParams(ps, end);
    ScanClose(rest);
    ParamsStart(ps);
    ScanBehindSpace(RenderParams(ps) + end);
  }

  lemma ScanRendered(e: Element, rest: bytes)
    requires WellFormed(e)
    ensures ScanElement(Render(e)[1..] + rest, false)
         == if HidesItsEnd(e) then ScanElement(rest, false) else Some(rest)
  {
    var tail := RenderParams(e.params) + ([CLOSE] + rest);
    assert Render(e)[1..] + rest == e.id + tail;
    ScanOddName(e.id, tail);
    if e.params == [] {
      assert tail == [CLOSE] + rest && tail[1..] == rest;
    } else {
      ScanBehindName(e.params, rest);
    }
  }

  /** What a rendered list starts with, one element at a time. */
  lemma RenderAllCons(es: seq<Element>, rest: bytes)
    requires es != []
    ensures RenderAll(es) + rest == [OPEN] + (Render(es[0])[1..] + (RenderAll(es[1..]) + rest))
  {
  }

  lemma {:induction false} SkipElementsShortens(s: bytes)
    ensures SkipElements(s).Some? ==> |SkipElements(s).value| <= |s|
    decreases |s|
  {
    if s != [] && s[0] == OPEN && ScanElement(s[1..], false).Some? {
      SkipElementsShortens(ScanElement(s[1..], false).value);
    }
  }

  /** Skipping the first element gets to the second or, without one, behind it, unless it hides its end. */
  lemma SkipFirst(e: Element, more: bytes)
    requires WellFormed(e)
    ensures var r := SkipElements([OPEN] + (Render(e)[1..] + more));
      if HidesItsEnd(e) && (more == [] || more[0] != OPEN) then r.None? || |r.value| < |more| else r == SkipElements(more)
  {
    var s := [OPEN] + (Render(e)[1..] + more);
    assert s[1..] == Render(e)[1..] + more;
    ScanRendered(e, more);
    if HidesItsEnd(e) {
      if more != [] && more[0] == OPEN {
        assert more == [OPEN] + more[1..];
        ScanByte(OPEN, more[1..], false);
      } else if ScanElement(more, false).Some? {
        SkipElementsShortens(ScanElement(more, false).value);
      }
    }
  }

  lemma {:induction false} SkipRendered(es: seq<Element>, rest: bytes)
    requires es != [] && AllWellFormed(es)
    requires rest == [] || rest[0] != OPEN
    ensures var r := SkipElements(RenderAll(es) + rest);
      if HidesItsEnd(es[|es| - 1]) then r.None? || |r.value| < |rest| else r == Some(rest)
  {
    var more := RenderAll(es[1..]) + rest;
    RenderAllCons(es, rest);
    SkipFirst(es[0], more);
    if |es| == 1 {
      assert more == rest;
    } else {
      RenderAllCons(es[1..], rest);
      SkipRendered(es[1..], rest);
    }
  }

  /**
   * skipStructuredData over any list of elements RFC 5424 can print: it returns exactly what follows
   * them if and only if the last element does not hide its end.
   */
  lemma {:induction false} SkipIff(es: seq<Element>, rest: bytes)
    requires es != [] && AllWellFormed(es)
    requires rest == [] || rest[0] != OPEN
    ensures SkipSd(RenderAll(es) + rest) == Some(rest) <==> !HidesItsEnd(es[|es| - 1])
  {
    SkipRendered(es, rest);
    RenderAllCons(es, rest);
  }

  /** A conforming element the scanner does not get past: the SD-ID is one backslash. */
  lemma SkipFailsOnBackslashName()
    ensures var e := Element([BACKSLASH], []);
      WellFormed(e) && SkipSd(RenderAll([e]) + [SP]) == None
  {
    var e := Element([BACKSLASH], []);
    var s := RenderAll([e]) + [SP];
    RenderAllCons([e], [SP]);
    assert RenderAll([]) == [];
    assert s == [OPEN, BACKSLASH, CLOSE, SP];
    assert s[1..] == [BACKSLASH, CLOSE, SP] && s[1..][2..] == [SP];
    assert ScanElement([SP], false) == None by { assert [SP][1..] == []; }
  }

  /** The field Format prints is skipped whole, for any logger and name. */
  lemma SkipPrintedField(e: Entry, name: bytes, rest: bytes)
    requires rest == [] || rest[0] != OPEN
    ensures SkipSd(SdField(e, name) + rest) == Some(rest)
  {
    var ps := SdParams(e, name);
    if ps == [] {
      assert (SdField(e, name) + rest)[1..] == rest;
    } else {
      var es := [Element(SD_ID, ps)];
      SdWellFormed(e, name);
      assert RenderAll(es[1..]) == [];
      assert RenderAll(es) == Render(es[0]);
      SkipIff(es, rest);
    }
  }

  // --- Parse after Format ---------------------------------------------------------------------

  lemma {:induction false} DigitsLength(n: nat)
    ensures |Digits(n)| >= 1
    ensures n < 1000 ==> |Digits(n)| == if n < 10 then 1 else if n < 100 then 2 else 3
  {
    if n >= 10 {
      DigitsLength(n / 10);
    }
  }

  /** A priority in angle brackets, whatever its digits. */
  lemma ReadPriorityOf(pri: bytes, rest: bytes)
    requires 1 <= |pri| <= 3 && GT !in pri && Atoi(pri).Some? && 0 <= Atoi(pri).value <= 191
    ensures ReadPriority([LT] + pri + [GT] + rest) == Some(Priority(Atoi(pri).value, rest))
  {
    var s := [LT] + pri + [GT] + rest;
    assert IndexOf(s, GT) == |pri| + 1 by { IndexOfAfter([LT] + pri, GT, rest); }
    assert s[1..|pri| + 1] == pri;
    assert s[|pri| + 2..] == rest;
  }

  lemma ReadPrintedPriority(n: nat, rest: bytes)
    requires n <= 191
    ensures ReadPriority([LT] + Itoa(n) + [GT] + rest) == Some(Priority(n, rest))
  {
    ItoaRoundTrip(n);
    DigitsLength(n);
    ReadPriorityOf(Itoa(n), rest);
  }

  lemma CutPrintedField(f: bytes, rest: bytes, n: nat)
    requires SP !in f
    requires CutFields(rest, n).Some?
    ensures CutFields(f + [SP] + rest, n + 1)
         == Some(Cut([f] + CutFields(rest, n).value.fields, CutFields(rest, n).value.rest))
  {
    var s := f + [SP] + rest;
    IndexOfAfter(f, SP, rest);
    assert s[..|f|] == f && s[|f| + 1..] == rest;
  }

  /** Space-terminated fields without spaces, printed one after the other. */
  function JoinFields(fs: seq<bytes>, rest: bytes): bytes {
    if fs == [] then rest else fs[0] + [SP] + JoinFields(fs[1..], rest)
  }

  lemma {:induction false} CutJoined(fs: seq<bytes>, rest: bytes)
    requires forall i :: 0 <= i < |fs| ==> SP !in fs[i]
    ensures CutFields(JoinFields(fs, rest), |fs|) == Some(Cut(fs, rest))
  {
    if fs != [] {
      CutJoined(fs[1..], rest);
      CutPrintedField(fs[0], JoinFields(fs[1..], rest), |fs| - 1);
      assert [fs[0]] + fs[1..] == fs;
    }
  }

  /** The six header fields Format prints behind the priority. */
  function HeaderFields(e: Entry, src: Source, clock: TimePrinter): seq<bytes> {
    [[49], clock(e.timestampMs), NameField(src.instance, MAX_HOSTNAME), NameField(src.component, MAX_APP_NAME),
     [MINUS], [MINUS]]
  }

  lemma JoinSix(a: bytes, b: bytes, c: bytes, d: bytes, e: bytes, f: bytes, rest: bytes)
    ensures JoinFields([a, b, c, d, e, f], rest)
         == a + [SP] + (b + [SP] + (c + [SP] + (d + [SP] + (e + [SP] + (f + [SP] + rest)))))
  {
    assert JoinFields([f], rest) == f + [SP] + rest by { assert [f][1..] == []; }
    assert JoinFields([e, f], rest) == e + [SP] + JoinFields([f], rest) by { assert [e, f][1..] == [f]; }
    assert JoinFields([d, e, f], rest) == d + [SP] + JoinFields([e, f], rest) by { assert [d, e, f][1..] == [e, f]; }
    var four, five, six := [c, d, e, f], [b, c, d, e, f], [a, b, c, d, e, f];
    assert JoinFields(four, rest) == c + [SP] + JoinFields([d, e, f], rest) by { assert four[1..] == [d, e, f]; }
    assert JoinFields(five, rest) == b + [SP] + JoinFields(four, rest) by { assert five[1..] == four; }
    assert JoinFields(six, rest) == a + [SP] + JoinFields(five, rest) by { assert six[1..] == five; }
  }

  lemma Regroup(p: bytes, t: bytes, h: bytes, a: bytes, sd: bytes, x: bytes)
    ensures [LT] + p + [GT, 49, SP] + t + [SP] + h + [SP] + a + [SP, MINUS, SP, MINUS, SP] + sd + [SP] + x
         == [LT] + p + [GT] + ([49] + [SP] + (t + [SP] + (h + [SP] + (a + [SP] + ([MINUS] + [SP]
            + ([MINUS] + [SP] + (sd + ([SP] + x))))))))
  {
    var front := [LT] + p + [GT, 49, SP] + t + [SP] + h + [SP] + a + [SP, MINUS, SP, MINUS, SP];
    assert front + sd + [SP] + x == front + (sd + ([SP] + x));
  }

  lemma FormatLayout(e: Entry, src: Source, name: bytes, clock: TimePrinter)
    ensures Format(e, src, name, clock)
         == [LT] + Itoa(FACILITY_LOCAL0 * 8 + Severity(e.level)) + [GT]
            + JoinFields(HeaderFields(e, src, clock), SdField(e, name) + ([SP] + Text(e.message)))
  {
    var p, t := Itoa(FACILITY_LOCAL0 * 8 + Severity(e.level)), clock(e.timestampMs);
    var h, a := NameField(src.instance, MAX_HOSTNAME), NameField(src.component, MAX_APP_NAME);
    var sd, x := SdField(e, name), Text(e.message);
    assert Ascii(">1 ") == [GT, 49, SP];
    assert Ascii(" - - ") == [SP, MINUS, SP, MINUS, SP];
    Regroup(p, t, h, a, sd, x);
    JoinSix([49], t, h, a, [MINUS], [MINUS], sd + ([SP] + x));
  }

  lemma ReadPrintedText(m: bytes)
    ensures ReadText([SP] + Text(m)) == Some(TrimPrefix(Text(m), BOM))
  {
    TextBounds(m);
    var t := Text(m);
    assert ([SP] + t)[1..] == t;
    var u := TrimPrefix(t, BOM);
    assert u != [] ==> u[|u| - 1] == t[|t| - 1];
  }

  predicate SpaceFree(fs: seq<bytes>) {
    forall i :: 0 <= i < |fs| ==> SP !in fs[i]
  }

  /** Parse over a printed line: priority, six fields, structured data, text. */
  lemma ParseLine(pri: nat, fs: seq<bytes>, sd: bytes, tail: bytes, text: bytes, read: TimeReader)
    requires pri <= 191 && |fs| == 6 && fs[0] == [49] && SpaceFree(fs)
    requires SkipSd(sd + tail) == Some(tail) && ReadText(tail) == Some(text)
    ensures ParseMessage([LT] + Itoa(pri) + [GT] + JoinFields(fs, sd + tail), read)
         == Some(Message(pri % 8, ReadTime(fs[1], read), NilValue(fs[2]), NilValue(fs[3]), text))
  {
    ReadPrintedPriority(pri, JoinFields(fs, sd + tail));
    CutJoined(fs, sd + tail);
  }

  /** The same with the fields Format prints. */
  lemma ParseFormatted(pri: nat, t: bytes, host: bytes, app: bytes, sd: bytes, tail: bytes, text: bytes, read: TimeReader)
    requires pri <= 191 && SP !in t && SP !in host && SP !in app
    requires SkipSd(sd + tail) == Some(tail) && ReadText(tail) == Some(text)
    ensures ParseMessage([LT] + Itoa(pri) + [GT] + JoinFields([[49], t, host, app, [MINUS], [MINUS]], sd + tail), read)
         == Some(Message(pri % 8, ReadTime(t, read), NilValue(host), NilValue(app), text))
  {
    ParseLine(pri, [[49], t, host, app, [MINUS], [MINUS]], sd, tail, text, read);
  }

  lemma ParsePrinted(e: Entry, src: Source, name: bytes, clock: TimePrinter, read: TimeReader, packet: bytes)
    requires SP !in clock(e.timestampMs)
    requires packet == [LT] + Itoa(FACILITY_LOCAL0 * 8 + Severity(e.level)) + [GT]
                       + JoinFields(HeaderFields(e, src, clock), SdField(e, name) + ([SP] + Text(e.message)))
    ensures ParseMessage(packet, read)
         == Some(Message(Severity(e.level), ReadTime(clock(e.timestampMs), read),
                         NilValue(NameField(src.instance, MAX_HOSTNAME)), NilValue(NameField(src.component, MAX_APP_NAME)),
                         TrimPrefix(Text(e.message), BOM)))
  {
    var host, app := NameField(src.instance, MAX_HOSTNAME), NameField(src.component, MAX_APP_NAME);
    var tail, text := [SP] + Text(e.message), TrimPrefix(Text(e.message), BOM);
    var pri := FACILITY_LOCAL0 * 8 + Severity(e.level);
    assert pri % 8 == Severity(e.level);
    assert SP !in host && SP !in app by {
      NameFieldUsable(src.instance, MAX_HOSTNAME);
      NameFieldUsable(src.component, MAX_APP_NAME);
    }
    assert SkipSd(SdField(e, name) + tail) == Some(tail) by { SkipPrintedField(e, name, tail); }
    assert ReadText(tail) == Some(text) by { ReadPrintedText(e.message); }
    ParseFormatted(pri, clock(e.timestampMs), host, app, SdField(e, name), tail, text, read);
  }

  /**
   * Whatever the bytes of entry, source and name: Parse accepts what Format printed and returns the
   * severity of the level, the sanitised instance and component ("-" read as empty), and the text
   * of the message without at most one leading byte order mark.
   */
  lemma {:induction false} ParseAfterFormat(e: Entry, src: Source, name: bytes, clock: TimePrinter, read: TimeReader)
    requires SP !in clock(e.timestampMs)
    ensures ParseMessage(Format(e, src, name, clock), read)
         == Some(Message(Severity(e.level), ReadTime(clock(e.timestampMs), read),
                         NilValue(NameField(src.instance, MAX_HOSTNAME)), NilValue(NameField(src.component, MAX_APP_NAME)),
                         TrimPrefix(Text(e.message), BOM)))
  {
    FormatLayout(e, src, name, clock);
    ParsePrinted(e, src, name, clock, read, Format(e, src, name, clock));
  }

  // --- What Parse accepts -----------------------------------------------------------------------

  lemma JoinCons(f: bytes, fs: seq<bytes>, rest: bytes)
    ensures JoinFields([f] + fs, rest) == f + [SP] + JoinFields(fs, rest)
  {
    assert ([f] + fs)[1..] == fs;
  }

  /** The fields that were cut, joined again, are what they were cut from. */
  lemma {:induction false} CutFieldsInverse(s: bytes, n: nat)
    requires CutFields(s, n).Some?
    ensures var c := CutFields(s, n).value;
      s == JoinFields(c.fields, c.rest) && forall i :: 0 <= i < n ==> SP !in c.fields[i]
    decreases n
  {
    if n > 0 {
      var i := IndexOf(s, SP);
      var f, tail := s[..i], s[i + 1..];
      var more := CutFields(tail, n - 1).value;
      assert s == f + [SP] + tail && SP !in f by { CutAtIndex(s, SP); }
      CutFieldsInverse(tail, n - 1);
      JoinCons(f, more.fields, more.rest);
    }
  }

  /** The parts of a packet: a priority, six space-terminated fields, structured data and a text. */
  predicate HasParts(packet: bytes, pri: bytes, fs: seq<bytes>, tail: bytes) {
    && packet == [LT] + pri + [GT] + JoinFields(fs, tail)
    && 1 <= |pri| <= 3 && GT !in pri && Atoi(pri).Some? && 0 <= Atoi(pri).value <= 191
    && |fs| == 6 && fs[0] == [49] && (forall i :: 0 <= i < 6 ==> SP !in fs[i])
    && SkipSd(tail).Some? && (SkipSd(tail).value == [] || SkipSd(tail).value[0] == SP)
  }

  lemma SplitAtBracket(packet: bytes)
    requires packet != [] && packet[0] == LT && IndexOf(packet, GT) < |packet|
    ensures var end := IndexOf(packet, GT);
      0 < end && packet == [LT] + packet[1..end] + [GT] + packet[end + 1..] && GT !in packet[1..end]
  {
    var end := IndexOf(packet, GT);
    CutAtIndex(packet, GT);
    assert packet[..end] == [LT] + packet[1..end];
  }

  lemma PriorityInverse(packet: bytes)
    requires ReadPriority(packet).Some?
    ensures var end := IndexOf(packet, GT);
      && 2 <= end <= 4 && end < |packet| && GT !in packet[1..end]
      && Atoi(packet[1..end]) == Some(ReadPriority(packet).value.pri)
      && packet == [LT] + packet[1..end] + [GT] + ReadPriority(packet).value.rest
  {
    SplitAtBracket(packet);
  }

  lemma AcceptedHasParts(packet: bytes, read: TimeReader)
    requires ParseMessage(packet, read).Some?
    ensures exists pri, fs, tail :: HasParts(packet, pri, fs, tail)
  {
    var p := ReadPriority(packet).value;
    var c := CutFields(p.rest, 6).value;
    var pri := packet[1..IndexOf(packet, GT)];
    PriorityInverse(packet);
    CutFieldsInverse(p.rest, 6);
    assert HasParts(packet, pri, c.fields, c.rest);
  }

  /**
   * The text of what stands behind the structured data: without it none, else what is left behind a space of at most
   * one byte order mark in front and of all line-break bytes at the end.
   */
  predicate IsTextOf(text: bytes, rest: bytes) {
    if rest == [] then text == []
    else
      var mark := if [0xEF, 0xBB, 0xBF] <= rest[1..] then 3 else 0;
      var end := 1 + mark + |text|;
      && rest[0] == SP && end <= |rest| && rest[1 + mark..end] == text
      && !EndsInLineBreak(text) && forall k :: end <= k < |rest| ==> rest[k] == CR || rest[k] == LF
  }

  lemma ReadTextMeaning(rest: bytes)
    requires ReadText(rest).Some?
    ensures IsTextOf(ReadText(rest).value, rest)
  {
    if rest != [] {
      var t := TrimPrefix(rest[1..], BOM);
      TrimLineEndCuts(t);
      assert t == rest[|rest| - |t|..];
    }
  }

  /** What Parse should make of the parts of a packet. */
  predicate IsMessageOf(m: Message, pri: bytes, fs: seq<bytes>, tail: bytes, read: TimeReader)
    requires Atoi(pri).Some? && |fs| == 6 && SkipSd(tail).Some?
  {
    && m.severity == Atoi(pri).value % 8
    && m.time == (if fs[1] != [MINUS] && read(fs[1]).Some? then read(fs[1]).value else ZERO_TIME)
    && m.hostname == (if fs[2] == [MINUS] then [] else fs[2])
    && m.appName == (if fs[3] == [MINUS] then [] else fs[3])
    && IsTextOf(m.text, SkipSd(tail).value)
  }

  /** What Parse returns for any packet it accepts, whoever printed it. */
  lemma ParsedParts(packet: bytes, pri: bytes, fs: seq<bytes>, tail: bytes, read: TimeReader)
    requires HasParts(packet, pri, fs, tail)
    ensures ParseMessage(packet, read).Some? && IsMessageOf(ParseMessage(packet, read).value, pri, fs, tail, read)
  {
    var rest := JoinFields(fs, tail);
    assert ReadPriority(packet) == Some(Priority(Atoi(pri).value, rest)) by { ReadPriorityOf(pri, rest); }
    assert CutFields(rest, 6) == Some(Cut(fs, tail)) by { CutJoined(fs, tail); }
    ReadTextMeaning(SkipSd(tail).value);
  }

  lemma {:induction false} ScanEndsAtBracket(s: bytes, inQuote: bool)
    requires ScanElement(s, inQuote).Some?
    ensures var rest := ScanElement(s, inQuote).value; s[|s| - |rest|..] == rest && s[|s| - |rest| - 1] == CLOSE
  {
    if s[0] == BACKSLASH && |s| > 1 {
      ScanEndsAtBracket(s[2..], inQuote);
    } else if s[0] == QUOTE {
      ScanEndsAtBracket(s[1..], !inQuote);
    } else if !(s[0] == CLOSE && !inQuote) {
      ScanEndsAtBracket(s[1..], inQuote);
    }
  }

  /** What is skipped as elements is nothing or ends in a closing bracket; no element starts behind it. */
  lemma {:induction false} SkipsToBracket(s: bytes)
    requires SkipElements(s).Some?
    ensures var rest := SkipElements(s).value;
      && |rest| <= |s| && s[|s| - |rest|..] == rest && (rest == [] || rest[0] != OPEN)
      && (|rest| < |s| ==> s[|s| - |rest| - 1] == CLOSE)
    decreases |s|
  {
    if s != [] && s[0] == OPEN {
      ScanEndsAtBracket(s[1..], false);
      SkipsToBracket(ScanElement(s[1..], false).value);
    }
  }

  /** Any input: what is skipped is "-", or starts with an opening bracket and ends in a closing one. */
  lemma SkippedPart(s: bytes)
    requires SkipSd(s).Some?
    ensures var rest := SkipSd(s).value;
      && |rest| < |s| && s[|s| - |rest|..] == rest
      && var front := s[..|s| - |rest|];
      || front == [MINUS]
      || (front[0] == OPEN && front[|front| - 1] == CLOSE && (rest == [] || rest[0] != OPEN))
  {
    if s[0] != MINUS {
      SkipsToBracket(s);
      ScanEndsAtBracket(s[1..], false);
      SkipsToBracket(ScanElement(s[1..], false).value);
    }
  }

  /** The priority of each level: facility local0, and the severity of section 6.2.1 of RFC 5424. */
  function PriorityOf(level: int): int {
    if level == 5 then 130 else if level == 4 then 131 else if level == 3 then 132 else if level == 1 then 135 else 134
  }

  /** What Format prints has the parts of a packet: its priority, version 1, no process and message id, and its text. */
  lemma FormatHasParts(e: Entry, src: Source, name: bytes, clock: TimePrinter) returns (pri: bytes, fs: seq<bytes>, tail: bytes)
    requires SP !in clock(e.timestampMs)
    ensures HasParts(Format(e, src, name, clock), pri, fs, tail)
    ensures Atoi(pri) == Some(PriorityOf(e.level))
    ensures fs == [[49], clock(e.timestampMs), NameField(src.instance, 255), NameField(src.component, 48), [MINUS], [MINUS]]
    ensures tail == SdField(e, name) + ([SP] + Text(e.message)) && SkipSd(tail) == Some([SP] + Text(e.message))
  {
    var n := FACILITY_LOCAL0 * 8 + Severity(e.level);
    pri, fs, tail := Itoa(n), HeaderFields(e, src, clock), SdField(e, name) + ([SP] + Text(e.message));
    FormatLayout(e, src, name, clock);
    ItoaRoundTrip(n);
    DigitsLength(n);
    NameFieldUsable(src.instance, 255);
    NameFieldUsable(src.component, 48);
    SkipPrintedField(e, name, [SP] + Text(e.message));
  }

  lemma PartsAreAccepted(packet: bytes, pri: bytes, fs: seq<bytes>, tail: bytes, read: TimeReader)
    requires HasParts(packet, pri, fs, tail)
    ensures ParseMessage(packet, read).Some?
  {
    ParsedParts(packet, pri, fs, tail, read);
  }

  /** Parse accepts exactly the packets that have these parts, whatever the sender put into them. */
  lemma {:induction false} ParseAcceptsIff(packet: bytes, read: TimeReader)
    ensures ParseMessage(packet, read).Some? <==> exists pri, fs, tail :: HasParts(packet, pri, fs, tail)
  {
    if ParseMessage(packet, read).Some? {
      AcceptedHasParts(packet, read);
    }
    if pri, fs, tail :| HasParts(packet, pri, fs, tail) {
      PartsAreAccepted(packet, pri, fs, tail, read);
    }
  }
}
