/** internal/forward/format.go: an entry as one RFC 5424 message, and its TCP frame. */
module SyslogFormat {
  import opened Bytes
  import opened Records
  import opened StructuredData
  import opened Utf8

  const FACILITY_LOCAL0 := 16
  const MAX_TEXT := 7000
  const MAX_HOSTNAME := 255
  const MAX_APP_NAME := 48
  const SD_ID: bytes := Ascii("hannah@32473")
  const TRUNCATED: bytes := Ascii("...")

  // --- severity -----------------------------------------------------------------------------

  function Severity(level: int): (s: nat)
    ensures s <= 7
  {
    if level == LEVEL_CRITICAL then 2
    else if level == LEVEL_ERROR then 3
    else if level == LEVEL_WARNING then 4
    else if level == LEVEL_DEBUG then 7
    else 6
  }

  // --- nameField ----------------------------------------------------------------------------

  /** Printable US-ASCII without space. */
  predicate IsNameChar(r: int) {
    SP < r < 0x7F
  }

  function NameChar(r: int): byte {
    if IsNameChar(r) then r else UNDERSCORE
  }

  /** One output byte per character of s, at most room of them. */
  function Sanitize(s: bytes, room: nat): (t: bytes)
    ensures |t| <= room
    ensures forall i :: 0 <= i < |t| ==> IsNameChar(t[i])
  {
    if s == [] || room == 0 then []
    else
      var d := DecodeRune(s);
      [NameChar(d.rune)] + Sanitize(s[d.width..], room - 1)
  }

  function NameField(s: bytes, limit: nat): bytes {
    var t := Sanitize(s, limit);
    if t == [] then [MINUS] else t
  }

  lemma SanitizeStep(done: bytes, rest: bytes, room: nat)
    requires rest != [] && room > 0
    ensures var d := DecodeRune(rest);
      done + Sanitize(rest, room) == done + [NameChar(d.rune)] + Sanitize(rest[d.width..], room - 1)
  {
  }

  method BuildNameField(s: bytes, limit: nat) returns (b: bytes)
    ensures b == NameField(s, limit)
  {
    b := [];
    var rest := s;
    while rest != [] && |b| < limit
      invariant |b| <= limit
      invariant b + Sanitize(rest, limit - |b|) == Sanitize(s, limit)
      decreases |rest|
    {
      var d := DecodeRune(rest);
      ghost var done := b;
      if d.rune > SP && d.rune < 0x7F {
        b := b + [d.rune];
      } else {
        b := b + [UNDERSCORE];
      }
      SanitizeStep(done, rest, limit - |done|);
      rest := rest[d.width..];
    }
    assert Sanitize(rest, limit - |b|) == [];
    if |b| == 0 {
      b := [MINUS];
    }
  }

  /** A usable HOSTNAME or APP-NAME: not empty, printable US-ASCII without space, within the limit. */
  predicate Usable(s: bytes, limit: nat) {
    0 < |s| <= limit && forall i :: 0 <= i < |s| ==> IsNameChar(s[i])
  }

  lemma NameFieldUsable(s: bytes, limit: nat)
    requires limit > 0
    ensures Usable(NameField(s, limit), limit)
  {
  }

  lemma {:induction false} SanitizeKeeps(s: bytes, room: nat)
    requires |s| <= room && forall i :: 0 <= i < |s| ==> IsNameChar(s[i])
    ensures Sanitize(s, room) == s
  {
    if s != [] {
      assert DecodeRune(s) == Decoded(s[0], 1);
      SanitizeKeeps(s[1..], room - 1);
      assert [s[0]] + s[1..] == s;
    }
  }

  /** Exactly the usable names stay as they are. */
  lemma {:induction false} NameFieldFixed(s: bytes, limit: nat)
    requires limit > 0
    ensures NameField(s, limit) == s <==> Usable(s, limit)
  {
    NameFieldUsable(s, limit);
    if Usable(s, limit) {
      SanitizeKeeps(s, limit);
    }
  }

  /** The field is the character-by-character image of s, cut to the limit. */
  lemma {:induction false} SanitizeIsMap(s: bytes, room: nat)
    ensures |Sanitize(s, room)| == if |Runes(s)| <= room then |Runes(s)| else room
    ensures forall i :: 0 <= i < |Sanitize(s, room)| ==> Sanitize(s, room)[i] == NameChar(Runes(s)[i])
    decreases |s|
  {
    if s != [] && room > 0 {
      SanitizeIsMap(s[DecodeRune(s).width..], room - 1);
    }
  }

  // --- text ---------------------------------------------------------------------------------

  /** The last position up to i at which a character starts, 0 at the latest. */
  function CutAt(t: bytes, i: nat): (c: nat)
    requires i < |t|
    ensures c <= i
    ensures c == 0 || RuneStart(t[c])
    ensures forall k :: c < k <= i ==> !RuneStart(t[k])
  {
    if i > 0 && !RuneStart(t[i]) then CutAt(t, i - 1) else i
  }

  function Text(message: bytes): bytes {
    var t := TrimLineEnd(message);
    if |t| <= MAX_TEXT then t else t[..CutAt(t, MAX_TEXT - |TRUNCATED|)] + TRUNCATED
  }

  method CutText(message: bytes) returns (t: bytes)
    ensures t == Text(message)
  {
    t := message;
    while t != [] && (t[|t| - 1] == CR || t[|t| - 1] == LF)
      invariant TrimLineEnd(t) == TrimLineEnd(message)
      decreases |t|
    {
      t := t[..|t| - 1];
    }
    if |t| <= MAX_TEXT {
      return;
    }
    var cut := MAX_TEXT - |TRUNCATED|;
    while cut > 0 && !RuneStart(t[cut])
      invariant 0 <= cut <= MAX_TEXT - |TRUNCATED|
      invariant CutAt(t, cut) == CutAt(t, MAX_TEXT - |TRUNCATED|)
    {
      cut := cut - 1;
    }
    t := t[..cut] + TRUNCATED;
  }

  /** The bounds of text, for any bytes; and what it leaves alone. */
  lemma TextBounds(m: bytes)
    ensures |Text(m)| <= MAX_TEXT
    ensures !EndsInLineBreak(Text(m))
    ensures Text(m) == m <==> |m| <= MAX_TEXT && !EndsInLineBreak(m)
  {
    TrimLineEndCuts(m);
    var t := TrimLineEnd(m);
    if |t| > MAX_TEXT {
      assert Text(m)[|Text(m)| - 1] == TRUNCATED[2];
    }
  }

  lemma TextIdempotent(m: bytes)
    ensures Text(Text(m)) == Text(m)
  {
    TextBounds(m);
    TextBounds(Text(m));
  }

  /** c is the length of the longest prefix of t that is valid UTF-8 and at most limit bytes long. */
  predicate LongestValidPrefix(t: bytes, limit: nat, c: nat)
    requires limit <= |t|
  {
    c <= limit && Valid(t[..c]) && forall q :: c < q <= limit ==> !Valid(t[..q])
  }

  /** A character is at most four bytes long: among four neighbours one starts a character. */
  lemma {:induction false} RuneStartNearby(s: bytes, i: nat)
    requires Valid(s) && 3 <= i < |s|
    ensures exists k :: i - 3 <= k <= i && RuneStart(s[k])
    decreases |s|
  {
    var w := CharWidth(s);
    if i - w >= 3 {
      RuneStartNearby(s[w..], i - w);
      var k :| i - w - 3 <= k <= i - w && RuneStart(s[w..][k]);
      assert s[w..][k] == s[k + w];
    } else if i >= w {
      BoundaryIffRuneStart(s, w);
      assert Boundary(s[w..], 0);
    } else {
      assert i == 3;
      BoundaryIffRuneStart(s, 0);
    }
  }

  /** The cut keeps the longest valid prefix, and loses at most three bytes of a character. */
  lemma CutOfValid(t: bytes, limit: nat)
    requires Valid(t) && 3 <= limit < |t|
    ensures limit - 3 <= CutAt(t, limit) && LongestValidPrefix(t, limit, CutAt(t, limit))
  {
    var c := CutAt(t, limit);
    RuneStartNearby(t, limit);
    BoundaryIffRuneStart(t, c);
    ValidUpTo(t, c);
    forall q | c < q <= limit ensures !Valid(t[..q]) {
      BoundaryIffRuneStart(t, q);
      ValidUpTo(t, q);
    }
  }

  /** A valid message stays valid, and a cut one keeps every whole character within 6997 bytes. */
  lemma TextOfValid(m: bytes)
    requires Valid(m)
    ensures Valid(Text(m))
    ensures var t := TrimLineEnd(m);
      if |t| <= MAX_TEXT then Text(m) == t
      else 6994 <= |Text(m)| - 3 && Text(m) == t[..|Text(m)| - 3] + TRUNCATED
           && LongestValidPrefix(t, 6997, |Text(m)| - 3)
  {
    TrimKeepsValid(m);
    var t := TrimLineEnd(m);
    if |t| > MAX_TEXT {
      CutOfValid(t, 6997);
      AsciiIsValid(TRUNCATED);
      ValidConcat(t[..CutAt(t, 6997)], TRUNCATED);
      assert Text(m)[..|Text(m)| - 3] == t[..CutAt(t, 6997)];
    }
  }

  // --- structuredData ---------------------------------------------------------------------------

  function SdParam(name: string, value: bytes): Param {
    Param(Ascii(name), value)
  }

  /** The parameters of the element: category unless unspecified, logger and name unless empty. */
  function SdParams(e: Entry, name: bytes): seq<Param> {
    (if e.category != CATEGORY_UNSPECIFIED then [SdParam("category", CategoryName(e.category))] else [])
    + (if e.logger != [] then [SdParam("logger", e.logger)] else [])
    + (if name != [] then [SdParam("name", name)] else [])
  }

  /** "-", or one element. */
  function SdField(e: Entry, name: bytes): bytes {
    if SdParams(e, name) == [] then [MINUS] else Render(Element(SD_ID, SdParams(e, name)))
  }

  /** The literals of the builder are the punctuation around a name. */
  lemma ParamLiteral(name: string, literal: string)
    requires literal == " " + name + "=\""
    ensures Ascii(literal) == [SP] + Ascii(name) + [EQ, QUOTE]
  {
  }

  lemma {:induction false} RenderParamsAppend(ps: seq<Param>, qs: seq<Param>)
    ensures RenderParams(ps + qs) == RenderParams(ps) + RenderParams(qs)
  {
    if ps == [] {
      assert ps + qs == qs;
    } else {
      assert (ps + qs)[1..] == ps[1..] + qs;
      RenderParamsAppend(ps[1..], qs);
    }
  }

  lemma AppendParam(b: bytes, ps: seq<Param>, name: string, literal: string, value: bytes)
    requires literal == " " + name + "=\""
    requires b == [OPEN] + SD_ID + RenderParams(ps)
    ensures b + Ascii(literal) + Escape(value) + [QUOTE] == [OPEN] + SD_ID + RenderParams(ps + [SdParam(name, value)])
  {
    var p := SdParam(name, value);
    var lit, esc := Ascii(literal), Escape(value);
    assert RenderParam(p) == lit + esc + [QUOTE] by { ParamLiteral(name, literal); }
    assert RenderParams(ps + [p]) == RenderParams(ps) + (lit + esc + [QUOTE]) by {
      RenderParamsAppend(ps, [p]);
      assert RenderParams([p]) == RenderParam(p);
    }
    Concat5([OPEN] + SD_ID, RenderParams(ps), lit, esc, [QUOTE]);
  }

  /** The builder of structuredData prints the element of RFC 5424 that SdField describes. */
  method BuildStructuredData(e: Entry, name: bytes) returns (b: bytes)
    ensures b == SdField(e, name)
  {
    var category := CategoryName(e.category);
    var hasCategory := e.category != CATEGORY_UNSPECIFIED;
    if !hasCategory && e.logger == [] && name == [] {
      return [MINUS];
    }
    b := [OPEN] + SD_ID;
    ghost var ps: seq<Param> := [];
    if hasCategory {
      AppendParam(b, ps, "category", " category=\"", category);
      b := b + Ascii(" category=\"") + Escape(category) + [QUOTE];
      ps := ps + [SdParam("category", category)];
    }
    if e.logger != [] {
      AppendParam(b, ps, "logger", " logger=\"", e.logger);
      b := b + Ascii(" logger=\"") + Escape(e.logger) + [QUOTE];
      ps := ps + [SdParam("logger", e.logger)];
    }
    if name != [] {
      AppendParam(b, ps, "name", " name=\"", name);
      b := b + Ascii(" name=\"") + Escape(name) + [QUOTE];
      ps := ps + [SdParam("name", name)];
    }
    b := b + [CLOSE];
    assert ps == SdParams(e, name);
  }

  lemma LettersAreName(s: string)
    requires s != "" && forall i :: 0 <= i < |s| ==> 'a' <= s[i] <= 'z'
    ensures IsName(Ascii(s))
  {
  }

  lemma LiteralNames()
    ensures IsName(Ascii("category")) && IsName(Ascii("logger")) && IsName(Ascii("name"))
  {
    LettersAreName("category");
    LettersAreName("logger");
    LettersAreName("name");
  }

  lemma SdIdIsName()
    ensures IsName(SD_ID)
  {
  }

  lemma SdWellFormed(e: Entry, name: bytes)
    ensures WellFormed(Element(SD_ID, SdParams(e, name)))
  {
    LiteralNames();
    SdIdIsName();
  }

  /** The value of the parameter called name, [] if there is none. */
  function ValueOf(ps: seq<Param>, name: bytes): bytes {
    if ps == [] then [] else if ps[0].name == name then ps[0].value else ValueOf(ps[1..], name)
  }

  lemma {:induction false} ValueOfSkips(ps: seq<Param>, qs: seq<Param>, name: bytes)
    requires forall i :: 0 <= i < |ps| ==> ps[i].name != name
    ensures ValueOf(ps + qs, name) == ValueOf(qs, name)
  {
    if ps == [] {
      assert ps + qs == qs;
    } else {
      assert (ps + qs)[1..] == ps[1..] + qs;
      ValueOfSkips(ps[1..], qs, name);
    }
  }

  /** Each of the three values can be looked up in the parameters, an absent one as []. */
  lemma ParamsDetermine(e: Entry, name: bytes)
    ensures var ps := SdParams(e, name);
      && ValueOf(ps, Ascii("category")) == (if e.category == CATEGORY_UNSPECIFIED then [] else CategoryName(e.category))
      && ValueOf(ps, Ascii("logger")) == e.logger
      && ValueOf(ps, Ascii("name")) == name
    ensures CategoryName(e.category) != []
  {
    CategoryNameStart(e.category);
    assert |Ascii("category")| == 8 && |Ascii("logger")| == 6 && |Ascii("name")| == 4;
    var c := if e.category != CATEGORY_UNSPECIFIED then [SdParam("category", CategoryName(e.category))] else [];
    var l := if e.logger != [] then [SdParam("logger", e.logger)] else [];
    var n := if name != [] then [SdParam("name", name)] else [];
    var ps := SdParams(e, name);
    assert ps == c + (l + n) && ps == (c + l) + n;
    ValueOfSkips(c, l + n, Ascii("logger"));
    ValueOfSkips(c + l, n, Ascii("name"));
    ValueOfSkips(n, [], Ascii("logger"));
    assert n + [] == n && (l == [] ==> l + n == n);
    if c == [] {
      ValueOfSkips(ps, [], Ascii("category"));
      assert ps + [] == ps;
    }
  }

  /**
   * The field tells exactly which of category, logger and name were there, and their bytes: entries
   * that differ in one of them never print alike.
   */
  lemma SdFieldInjective(e1: Entry, name1: bytes, e2: Entry, name2: bytes)
    requires SdField(e1, name1) == SdField(e2, name2)
    ensures e1.category == e2.category && e1.logger == e2.logger && name1 == name2
  {
    var p1, p2 := SdParams(e1, name1), SdParams(e2, name2);
    SdWellFormed(e1, name1);
    SdWellFormed(e2, name2);
    ReadRendered(Element(SD_ID, p1), []);
    ReadRendered(Element(SD_ID, p2), []);
    assert Render(Element(SD_ID, p1)) + [] == Render(Element(SD_ID, p1));
    assert Render(Element(SD_ID, p2)) + [] == Render(Element(SD_ID, p2));
    assert p1 == p2;
    ParamsDetermine(e1, name1);
    ParamsDetermine(e2, name2);
    if e1.category != CATEGORY_UNSPECIFIED && e2.category != CATEGORY_UNSPECIFIED {
      CategoryNameInjective(e1.category, e2.category);
    }
  }

  /**
   * What a reader of RFC 5424 finds in the field: "-" if there is nothing to say, else one element with the
   * private enterprise number 32473 and, by their names, the category, the logger and the name.
   */
  lemma SdFieldReads(e: Entry, name: bytes, rest: bytes)
    ensures var nothing := e.category == CATEGORY_UNSPECIFIED && e.logger == [] && name == [];
      if nothing then SdField(e, name) == [MINUS]
      else
        var r := ReadElement(SdField(e, name) + rest);
        && r.Done? && r.rest == rest && r.value.id == Ascii("hannah@32473")
        && ValueOf(r.value.params, Ascii("category"))
        == (if e.category == CATEGORY_UNSPECIFIED then [] else CategoryName(e.category))
        && ValueOf(r.value.params, Ascii("logger")) == e.logger
        && ValueOf(r.value.params, Ascii("name")) == name
  {
    if SdParams(e, name) != [] {
      SdWellFormed(e, name);
      ReadRendered(Element(SD_ID, SdParams(e, name)), rest);
      ParamsDetermine(e, name);
    }
  }

  // --- Format and Frame ---------------------------------------------------------------------

  function Format(e: Entry, src: Source, name: bytes, clock: TimePrinter): bytes {
    [LT] + Itoa(FACILITY_LOCAL0 * 8 + Severity(e.level)) + Ascii(">1 ")
    + clock(e.timestampMs) + [SP]
    + NameField(src.instance, MAX_HOSTNAME) + [SP]
    + NameField(src.component, MAX_APP_NAME) + Ascii(" - - ")
    + SdField(e, name) + [SP]
    + Text(e.message)
  }

  lemma FormatIsNotEmpty(e: Entry, src: Source, name: bytes, clock: TimePrinter)
    ensures Format(e, src, name, clock) != []
  {
    assert |[LT] + Itoa(FACILITY_LOCAL0 * 8 + Severity(e.level)) + Ascii(">1 ")| > 0;
  }

  method BuildMessage(e: Entry, src: Source, name: bytes, clock: TimePrinter) returns (b: bytes)
    ensures b == Format(e, src, name, clock)
  {
    b := [LT];
    b := b + Itoa(FACILITY_LOCAL0 * 8 + Severity(e.level));
    b := b + Ascii(">1 ");
    b := b + clock(e.timestampMs) + [SP];
    var instance := BuildNameField(src.instance, MAX_HOSTNAME);
    b := b + instance + [SP];
    var component := BuildNameField(src.component, MAX_APP_NAME);
    b := b + component + Ascii(" - - ");
    var sd := BuildStructuredData(e, name);
    b := b + sd + [SP];
    var text := CutText(e.message);
    b := b + text;
  }

  /** The octet count of RFC 6587, section 3.4.1, in front of the message. */
  function Frame(message: bytes): bytes {
    Itoa(|message|) + [SP] + message
  }
}
