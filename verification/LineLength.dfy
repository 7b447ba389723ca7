/** How long a printed line gets, against the limit the receiver accepts by default. */
module LineLength {
  import opened Bytes
  import opened Records
  import opened StructuredData
  import opened SyslogFormat
  import RoundTrip

  /** max_message_length of the receiver, the limit named beside maxText. */
  const RECEIVER_LIMIT := 8192

  lemma FormatLength(e: Entry, src: Source, name: bytes, clock: TimePrinter)
    ensures |Format(e, src, name, clock)|
         == 15 + |clock(e.timestampMs)| + |NameField(src.instance, MAX_HOSTNAME)|
            + |NameField(src.component, MAX_APP_NAME)| + |SdField(e, name)| + |Text(e.message)|
  {
    RoundTrip.DigitsLength(FACILITY_LOCAL0 * 8 + Severity(e.level));
  }

  /** A number or a name of the enum holds nothing that needs escaping. */
  lemma {:induction false} NoSpecials(v: bytes)
    requires forall i :: 0 <= i < |v| ==> !NeedsEscape(v[i])
    ensures Specials(v) == 0
  {
    if v != [] {
      NoSpecials(v[1..]);
    }
  }

  lemma LettersNeedNoEscape(s: string)
    requires forall i :: 0 <= i < |s| ==> 'A' <= s[i] <= 'Z'
    ensures Specials(Ascii(s)) == 0
  {
    NoSpecials(Ascii(s));
  }

  lemma CategoryNeedsNoEscape(c: int)
    ensures Specials(CategoryName(c)) == 0
  {
    if c in {0, 1, 2, 3} {
      var s := if c == 0 then "UNSPECIFIED" else if c == 1 then "GENERAL" else if c == 2 then "TRANSCRIPT" else "METADATA";
      LettersNeedNoEscape(s);
      assert CategoryName(c) == Ascii(s);
    } else {
      ItoaRoundTrip(c);
      NoSpecials(CategoryName(c));
    }
  }

  /** The bytes a parameter takes: its name, the punctuation and the escaped value. */
  function ParamLength(nameLength: nat, value: bytes): nat {
    nameLength + 4 + |value| + Specials(value)
  }

  /** A parameter that may be left out. */
  function Optional(present: bool, name: string, value: bytes): seq<Param> {
    if present then [SdParam(name, value)] else []
  }

  lemma OptionalLength(present: bool, name: string, value: bytes)
    ensures |RenderParams(Optional(present, name, value))| == if present then ParamLength(|name|, value) else 0
  {
    if present {
      EscapeLength(value);
      assert RenderParams([SdParam(name, value)]) == RenderParam(SdParam(name, value));
    }
  }

  lemma ThreeParamsLength(c: seq<Param>, l: seq<Param>, n: seq<Param>)
    ensures |RenderParams(c + l + n)| == |RenderParams(c)| + |RenderParams(l)| + |RenderParams(n)|
  {
    RenderParamsAppend(c, l);
    RenderParamsAppend(c + l, n);
  }

  lemma ElementLength(ps: seq<Param>)
    ensures |Render(Element(SD_ID, ps))| == 14 + |RenderParams(ps)|
  {
  }

  /** The exact length of the structured data, from what a caller of Format can count. */
  lemma SdLength(e: Entry, name: bytes)
    ensures |SdField(e, name)|
         == if e.category == CATEGORY_UNSPECIFIED && e.logger == [] && name == [] then 1
            else 14 + (if e.category == CATEGORY_UNSPECIFIED then 0 else 12 + |CategoryName(e.category)|)
                 + (if e.logger == [] then 0 else ParamLength(6, e.logger))
                 + (if name == [] then 0 else ParamLength(4, name))
  {
    var category := CategoryName(e.category);
    var c := Optional(e.category != CATEGORY_UNSPECIFIED, "category", category);
    var l, n := Optional(e.logger != [], "logger", e.logger), Optional(name != [], "name", name);
    CategoryNeedsNoEscape(e.category);
    OptionalLength(e.category != CATEGORY_UNSPECIFIED, "category", category);
    OptionalLength(e.logger != [], "logger", e.logger);
    OptionalLength(name != [], "name", name);
    ThreeParamsLength(c, l, n);
    ElementLength(c + l + n);
    assert SdParams(e, name) == c + l + n;
  }

  /** The header and the text are bounded, the structured data is not. */
  lemma FormatBound(e: Entry, src: Source, name: bytes, clock: TimePrinter)
    requires |clock(e.timestampMs)| == 24
    ensures |Format(e, src, name, clock)| <= 7342 + |SdField(e, name)|
  {
    FormatLength(e, src, name, clock);
    NameFieldUsable(src.instance, MAX_HOSTNAME);
    NameFieldUsable(src.component, MAX_APP_NAME);
    TextBounds(e.message);
  }

  function Repeat(b: byte, n: nat): (s: bytes)
    ensures |s| == n && forall i :: 0 <= i < n ==> s[i] == b
  {
    seq(n, _ => b)
  }

  /**
   * The promise beside maxText, a line within 8192 bytes whatever the source and the message, holds
   * for an entry's category, logger and name exactly when its structured data takes at most 850 bytes.
   */
  lemma FitsReceiverIff(e: Entry, name: bytes, clock: TimePrinter)
    requires |clock(e.timestampMs)| == 24
    ensures (forall src: Source, m: bytes :: |Format(e.(message := m), src, name, clock)| <= RECEIVER_LIMIT)
       <==> |SdField(e, name)| <= 850
  {
    if |SdField(e, name)| <= 850 {
      forall src: Source, m: bytes ensures |Format(e.(message := m), src, name, clock)| <= RECEIVER_LIMIT {
        FormatBound(e.(message := m), src, name, clock);
        assert SdField(e.(message := m), name) == SdField(e, name);
      }
    } else {
      var src := Source(Repeat(97, MAX_APP_NAME), Repeat(97, MAX_HOSTNAME), []);
      var full := e.(message := Repeat(97, MAX_TEXT));
      FormatLength(full, src, name, clock);
      NameFieldFixed(src.instance, MAX_HOSTNAME);
      NameFieldFixed(src.component, MAX_APP_NAME);
      TextBounds(full.message);
      assert SdField(full, name) == SdField(e, name);
    }
  }

  /** One entry the promise fails for: an empty message from a logger with a name of 8192 bytes. */
  lemma LongLoggerDoesNotFit(clock: TimePrinter)
    ensures |Format(Entry(1, 0, LEVEL_INFO, Repeat(97, 8192), [], CATEGORY_GENERAL), Source([], [], []), [], clock)|
          > RECEIVER_LIMIT
  {
    var e := Entry(1, 0, LEVEL_INFO, Repeat(97, 8192), [], CATEGORY_GENERAL);
    FormatLength(e, Source([], [], []), [], clock);
    SdLength(e, []);
  }
}
