/** An entry forwarded by one collector and ingested by the next. */
module Hop {
  import opened Bytes
  import opened Wrappers
  import opened Records
  import opened SyslogFormat
  import opened SyslogParse
  import opened Receiver
  import RoundTrip

  /** The clock of a collector and its sender's address, which may differ from hop to hop. */
  datatype Via = Via(name: bytes, host: bytes, now: Instant)

  /** The level of each severity of section 6.2.1 of RFC 5424. */
  function LevelOf(severity: nat): int {
    if severity in {0, 1, 2} then 5 // emergency, alert, critical
    else if severity == 3 then 4 // error
    else if severity == 4 then 3 // warning
    else if severity in {5, 6} then 2 // notice, informational
    else 1 // debug
  }

  /** The millisecond an instant lies in. */
  predicate IsMillisecondOf(ms: int, t: Instant) {
    ms * 1000000 <= t < (ms + 1) * 1000000
  }

  /** What a packet with these parts should become, from a sender at host, at the time now. */
  predicate IsEntryOf(
    e: Entry, component: bytes, instance: bytes, pri: bytes, fs: seq<bytes>, tail: bytes, host: bytes, read: TimeReader,
    now: Instant)
    requires Atoi(pri).Some? && Atoi(pri).value >= 0 && |fs| == 6 && SkipSd(tail).Some?
  {
    && component == (if fs[3] == [] || fs[3] == [MINUS] then Ascii("syslog") else fs[3])
    && instance == (if fs[2] == [] || fs[2] == [MINUS] then host else fs[2])
    && IsMillisecondOf(e.timestampMs,
                       if fs[1] == [MINUS] || read(fs[1]).None? || read(fs[1]).value == ZERO_TIME then now
                       else read(fs[1]).value)
    && e.level == LevelOf(Atoi(pri).value % 8)
    && e.logger == [] && e.category == 1
    && RoundTrip.IsTextOf(e.message, SkipSd(tail).value)
  }

  lemma MillisecondOf(t: Instant)
    ensures IsMillisecondOf(UnixMilli(t), t)
  {
  }

  lemma LevelOfSeverity(severity: nat)
    requires severity <= 7
    ensures LevelFor(severity) == LevelOf(severity)
  {
  }

  /** What the receiver makes of any packet Parse accepts, whoever sent it. */
  lemma IngestedParts(
    packet: bytes, pri: bytes, fs: seq<bytes>, tail: bytes, host: bytes, read: TimeReader, now: Instant, id: int)
    requires RoundTrip.HasParts(packet, pri, fs, tail)
    ensures Ingest(packet, host, read, now).Some?
    ensures var i := Ingest(packet, host, read, now).value;
      ToEntry(i, id).sourceId == id && IsEntryOf(ToEntry(i, id), i.component, i.instance, pri, fs, tail, host, read, now)
  {
    RoundTrip.ParsedParts(packet, pri, fs, tail, read);
    var m := ParseMessage(packet, read).value;
    var t := if m.time == ZERO_TIME then now else m.time;
    MillisecondOf(t);
    LevelOfSeverity(m.severity);
  }

  /** What the next collector makes of a forwarded entry; None if encode skips it or Parse refuses it. */
  function Forwarded(e: Entry, src: Source, via: Via, clock: TimePrinter, read: TimeReader): Option<Ingested> {
    if Text(e.message) == [] then None
    else Ingest(Format(e, src, via.name, clock), via.host, read, via.now)
  }

  /** The entry and source a collector stores for it, under whatever id and version. */
  function Again(i: Ingested, id: int, version: bytes, via: Via, clock: TimePrinter, read: TimeReader): Option<Ingested> {
    Forwarded(ToEntry(i, id), Source(i.component, i.instance, version), via, clock, read)
  }

  /** The reader understands what the printer makes of this time, and it is not Go's zero time. */
  predicate TimeRoundTrips(ms: int, clock: TimePrinter, read: TimeReader) {
    && SP !in clock(ms) && clock(ms) != [MINUS]
    && read(clock(ms)).Some? && read(clock(ms)).value != ZERO_TIME && UnixMilli(read(clock(ms)).value) == ms
  }

  /** The sender's host can stand in for the hostname. */
  predicate UsableHost(host: bytes) {
    Usable(host, MAX_HOSTNAME) && host != [MINUS]
  }

  /** The instance a forwarded source gets. */
  function InstanceAfter(instance: bytes, host: bytes): bytes {
    var f := NameField(instance, MAX_HOSTNAME);
    if f == [MINUS] then host else f
  }

  function ComponentAfter(component: bytes): bytes {
    var f := NameField(component, MAX_APP_NAME);
    if f == [MINUS] then FALLBACK_COMPONENT else f
  }

  lemma OneHop(e: Entry, src: Source, via: Via, clock: TimePrinter, read: TimeReader)
    requires TimeRoundTrips(e.timestampMs, clock, read)
    ensures Forwarded(e, src, via, clock, read)
         == if Text(e.message) == [] then None
            else Some(Ingested(ComponentAfter(src.component), InstanceAfter(src.instance, via.host), e.timestampMs,
                               LevelFor(Severity(e.level)), TrimPrefix(Text(e.message), BOM)))
  {
    RoundTrip.ParseAfterFormat(e, src, via.name, clock, read);
    NameFieldUsable(src.instance, MAX_HOSTNAME);
    NameFieldUsable(src.component, MAX_APP_NAME);
  }

  lemma FallbackIsUsable()
    ensures Usable(FALLBACK_COMPONENT, MAX_APP_NAME) && FALLBACK_COMPONENT != [MINUS]
  {
    assert |FALLBACK_COMPONENT| == 6;
  }

  lemma NamesAreFixed(component: bytes, instance: bytes, host: bytes, host2: bytes)
    requires UsableHost(host)
    ensures ComponentAfter(ComponentAfter(component)) == ComponentAfter(component)
    ensures InstanceAfter(InstanceAfter(instance, host), host2) == InstanceAfter(instance, host)
  {
    NameFieldUsable(instance, MAX_HOSTNAME);
    NameFieldUsable(component, MAX_APP_NAME);
    NameFieldFixed(InstanceAfter(instance, host), MAX_HOSTNAME);
    FallbackIsUsable();
    NameFieldFixed(ComponentAfter(component), MAX_APP_NAME);
  }

  /** The five levels have their own severity, the graver the smaller, and are read back; any other level is info. */
  lemma LevelRoundTrip(level: int)
    ensures LevelFor(Severity(level)) == if LEVEL_DEBUG <= level <= LEVEL_CRITICAL then level else LEVEL_INFO
    ensures forall graver :: LEVEL_DEBUG <= level < graver <= LEVEL_CRITICAL ==> Severity(graver) < Severity(level)
  {
  }

  lemma LevelsAreFixed(level: int)
    ensures LevelFor(Severity(LevelFor(Severity(level)))) == LevelFor(Severity(level))
  {
  }

  /** The text without its byte order mark is a text already. */
  lemma TextWithoutBom(m: bytes)
    ensures Text(TrimPrefix(Text(m), BOM)) == TrimPrefix(Text(m), BOM)
  {
    var t := Text(m);
    var u := TrimPrefix(t, BOM);
    TextBounds(m);
    assert u != [] ==> u[|u| - 1] == t[|t| - 1];
    TextBounds(u);
  }

  lemma TrimTwice(t: bytes)
    ensures TrimPrefix(TrimPrefix(t, BOM), BOM) == TrimPrefix(t, BOM) <==> !HasPrefix(t, BOM + BOM)
    ensures TrimPrefix(t, BOM) == [] <==> t == [] || t == BOM
  {
    var u := TrimPrefix(t, BOM);
    if HasPrefix(t, BOM) {
      assert t == BOM + u;
      assert HasPrefix(t, BOM + BOM) ==> u[..3] == t[3..6];
      assert HasPrefix(u, BOM) ==> t[..6] == BOM + BOM;
    }
  }

  /** The second hop, from the first one's point of view. */
  lemma SecondHop(
    c: bytes, h: bytes, ms: int, level: int, m: bytes, id: int, version: bytes, via2: Via, clock: TimePrinter, read: TimeReader)
    requires TimeRoundTrips(ms, clock, read)
    requires ComponentAfter(c) == c && InstanceAfter(h, via2.host) == h && LevelFor(Severity(level)) == level && Text(m) == m
    ensures Again(Ingested(c, h, ms, level, m), id, version, via2, clock, read)
         == if m == [] then None else Some(Ingested(c, h, ms, level, TrimPrefix(m, BOM)))
  {
    OneHop(ToEntry(Ingested(c, h, ms, level, m), id), Source(c, h, version), via2, clock, read);
  }

  /**
   * One hop is a fixed point: a second hop changes nothing of what the first one made of an entry,
   * over different hosts, names and clocks of the hops, if and only if the text is neither just a
   * byte order mark nor begins with two of them.
   */
  lemma {:induction false} OneHopIsFixedIff(
    e: Entry, src: Source, via: Via, clock: TimePrinter, read: TimeReader, id: int, version: bytes, via2: Via)
    requires TimeRoundTrips(e.timestampMs, clock, read) && UsableHost(via.host)
    requires Text(e.message) != []
    ensures Forwarded(e, src, via, clock, read).Some?
    ensures var i := Forwarded(e, src, via, clock, read).value;
      Again(i, id, version, via2, clock, read) == Some(i)
      <==> Text(e.message) != BOM && !HasPrefix(Text(e.message), BOM + BOM)
  {
    var c, h := ComponentAfter(src.component), InstanceAfter(src.instance, via.host);
    var level, u := LevelFor(Severity(e.level)), TrimPrefix(Text(e.message), BOM);
    assert Forwarded(e, src, via, clock, read) == Some(Ingested(c, h, e.timestampMs, level, u)) by {
      OneHop(e, src, via, clock, read);
    }
    assert Again(Ingested(c, h, e.timestampMs, level, u), id, version, via2, clock, read)
        == if u == [] then None else Some(Ingested(c, h, e.timestampMs, level, TrimPrefix(u, BOM))) by {
      NamesAreFixed(src.component, src.instance, via.host, via2.host);
      LevelsAreFixed(e.level);
      TextWithoutBom(e.message);
      SecondHop(c, h, e.timestampMs, level, u, id, version, via2, clock, read);
    }
    TrimTwice(Text(e.message));
  }
}
