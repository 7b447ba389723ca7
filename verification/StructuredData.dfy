/**
 * Structured data as section 6.3 of RFC 5424 defines it: elements, their rendering with escaped
 * parameter values, and a reader that undoes the rendering.
 */
module StructuredData {
  import opened Bytes

  datatype Param = Param(name: bytes, value: bytes)

  datatype Element = Element(id: bytes, params: seq<Param>)

  /** A byte of an SD-NAME: printable US-ASCII except '=', space, ']' and '"'. A backslash is one. */
  predicate IsNameByte(b: byte) {
    SP < b < 127 && b != EQ && b != CLOSE && b != QUOTE
  }

  predicate IsName(s: bytes) {
    s != [] && forall i :: 0 <= i < |s| ==> IsNameByte(s[i])
  }

  predicate WellFormed(e: Element) {
    IsName(e.id) && forall i :: 0 <= i < |e.params| ==> IsName(e.params[i].name)
  }

  predicate AllWellFormed(es: seq<Element>) {
    forall i :: 0 <= i < |es| ==> WellFormed(es[i])
  }

  predicate NeedsEscape(b: byte) {
    b == BACKSLASH || b == QUOTE || b == CLOSE
  }

  function EscapeByte(b: byte): bytes {
    if NeedsEscape(b) then [BACKSLASH, b] else [b]
  }

  /** A parameter value with a backslash before each '\', '"' and ']' (section 6.3.3). */
  function Escape(v: bytes): bytes {
    if v == [] then []
    else EscapeByte(v[0]) + Escape(v[1..])
  }

  /** How many bytes of v have to be escaped. */
  function Specials(v: bytes): nat {
    if v == [] then 0 else (if NeedsEscape(v[0]) then 1 else 0) + Specials(v[1..])
  }

  lemma {:induction false} EscapeLength(v: bytes)
    ensures |Escape(v)| == |v| + Specials(v)
  {
    if v != [] {
      EscapeLength(v[1..]);
    }
  }

  /** SP PARAM-NAME "=" '"' PARAM-VALUE '"' */
  function RenderParam(p: Param): bytes {
    [SP] + p.name + [EQ, QUOTE] + Escape(p.value) + [QUOTE]
  }

  function RenderParams(ps: seq<Param>): bytes {
    if ps == [] then [] else RenderParam(ps[0]) + RenderParams(ps[1..])
  }

  function Render(e: Element): bytes {
    [OPEN] + e.id + RenderParams(e.params) + [CLOSE]
  }

  function RenderAll(es: seq<Element>): bytes {
    if es == [] then [] else Render(es[0]) + RenderAll(es[1..])
  }

  // --- A reader following section 6.3 -------------------------------------------------------

  datatype Read<+T> = Done(value: T, rest: bytes) | Bad

  /** The bytes of an SD-NAME at the start of s. */
  function NameLength(s: bytes): (n: nat)
    ensures n <= |s|
    ensures forall i :: 0 <= i < n ==> IsNameByte(s[i])
    ensures n < |s| ==> !IsNameByte(s[n])
  {
    if s != [] && IsNameByte(s[0]) then 1 + NameLength(s[1..]) else 0
  }

  /**
   * A value up to its closing quote. A backslash before '"', '\' or ']' escapes it, any other
   * backslash is an ordinary character; an unescaped ']' must not appear.
   */
  function ReadValue(s: bytes): Read<bytes> {
    if s == [] || s[0] == CLOSE then Bad
    else if s[0] == QUOTE then Done([], s[1..])
    else
      var width := if s[0] == BACKSLASH && |s| > 1 && NeedsEscape(s[1]) then 2 else 1;
      match ReadValue(s[width..])
      case Done(v, rest) => Done([s[width - 1]] + v, rest)
      case Bad => Bad
  }

  function ReadParam(s: bytes): (r: Read<Param>)
    ensures r.Done? ==> |r.rest| < |s|
  {
    var n := NameLength(s);
    if n == 0 || |s| < n + 2 || s[n] != EQ || s[n + 1] != QUOTE then Bad
    else
      var v := ReadValue(s[n + 2..]);
      if v.Bad? || |v.rest| >= |s| then Bad else Done(Param(s[..n], v.value), v.rest)
  }

  /** The parameters up to and including the closing bracket. */
  function ReadParams(s: bytes): Read<seq<Param>>
    decreases |s|
  {
    if s == [] then Bad
    else if s[0] == CLOSE then Done([], s[1..])
    else if s[0] != SP then Bad
    else
      match ReadParam(s[1..])
      case Bad => Bad
      case Done(p, rest) =>
        match ReadParams(rest)
        case Bad => Bad
        case Done(ps, tail) => Done([p] + ps, tail)
  }

  function ReadElement(s: bytes): Read<Element> {
    if s == [] || s[0] != OPEN then Bad
    else
      var n := NameLength(s[1..]);
      if n == 0 then Bad
      else
        match ReadParams(s[1 + n..])
        case Bad => Bad
        case Done(ps, rest) => Done(Element(s[1..1 + n], ps), rest)
  }

  // --- Reading undoes rendering -----------------------------------------------------------------

  lemma {:induction false} NameLengthOf(name: bytes, rest: bytes)
    requires forall i :: 0 <= i < |name| ==> IsNameByte(name[i])
    requires rest != [] && !IsNameByte(rest[0])
    ensures NameLength(name + rest) == |name|
  {
    if name == [] {
      assert name + rest == rest;
    } else {
      assert (name + rest)[1..] == name[1..] + rest;
      NameLengthOf(name[1..], rest);
    }
  }

  /** Reading one byte, escaped if it needs to be, adds it in front of what the tail reads as. */
  lemma ReadValueStep(b: byte, tail: bytes)
    requires ReadValue(tail).Done?
    ensures ReadValue(EscapeByte(b) + tail)
         == Done([b] + ReadValue(tail).value, ReadValue(tail).rest)
  {
    if NeedsEscape(b) {
      assert ([BACKSLASH, b] + tail)[2..] == tail;
    } else {
      assert ([b] + tail)[1..] == tail;
    }
  }

  lemma EscapeStep(v: bytes, rest: bytes)
    requires v != []
    ensures Escape(v) + [QUOTE] + rest == EscapeByte(v[0]) + (Escape(v[1..]) + [QUOTE] + rest)
  {
  }

  /** Whatever its bytes, an escaped value reads back as itself. */
  lemma {:induction false} ReadEscaped(v: bytes, rest: bytes)
    ensures ReadValue(Escape(v) + [QUOTE] + rest) == Done(v, rest)
  {
    if v == [] {
      assert (Escape(v) + [QUOTE] + rest)[1..] == rest;
    } else {
      var tail := Escape(v[1..]) + [QUOTE] + rest;
      ReadEscaped(v[1..], rest);
      assert ReadValue(EscapeByte(v[0]) + tail) == Done([v[0]] + v[1..], rest) by { ReadValueStep(v[0], tail); }
      EscapeStep(v, rest);
      assert [v[0]] + v[1..] == v;
    }
  }

  /** PARAM-NAME "=" '"' and a value: the reader gets the name, and of the value what ReadValue gets. */
  lemma ReadParamOf(name: bytes, tail: bytes)
    requires IsName(name) && ReadValue(tail).Done? && |ReadValue(tail).rest| <= |tail|
    ensures ReadParam(name + ([EQ, QUOTE] + tail)) == Done(Param(name, ReadValue(tail).value), ReadValue(tail).rest)
  {
    var s := name + ([EQ, QUOTE] + tail);
    NameLengthOf(name, [EQ, QUOTE] + tail);
    assert s[|name| + 2..] == tail && s[..|name|] == name;
  }

  lemma RenderedParam(p: Param, rest: bytes)
    ensures RenderParam(p) + rest == [SP] + (p.name + ([EQ, QUOTE] + (Escape(p.value) + [QUOTE] + rest)))
  {
    var a, b, c, d, e := [SP] + p.name, [EQ, QUOTE], Escape(p.value), [QUOTE], rest;
    assert a + b + c + d + e == a + (b + (c + d + e)) by { Concat5(a, b, c, d, e); }
    assert [SP] + p.name + (b + (c + d + e)) == [SP] + (p.name + (b + (c + d + e)));
  }

  lemma ReadRenderedParam(p: Param, rest: bytes)
    requires IsName(p.name)
    ensures ReadParam((RenderParam(p) + rest)[1..]) == Done(p, rest)
  {
    var tail := Escape(p.value) + [QUOTE] + rest;
    assert ReadValue(tail) == Done(p.value, rest) by { ReadEscaped(p.value, rest); }
    ReadParamOf(p.name, tail);
    RenderedParam(p, rest);
    assert ([SP] + (p.name + ([EQ, QUOTE] + tail)))[1..] == p.name + ([EQ, QUOTE] + tail);
  }

  lemma {:induction false} ReadRenderedParams(ps: seq<Param>, rest: bytes)
    requires forall i :: 0 <= i < |ps| ==> IsName(ps[i].name)
    ensures ReadParams(RenderParams(ps) + [CLOSE] + rest) == Done(ps, rest)
  {
    var s := RenderParams(ps) + [CLOSE] + rest;
    if ps == [] {
      assert s[1..] == rest;
    } else {
      var tail := RenderParams(ps[1..]) + [CLOSE] + rest;
      assert s == RenderParam(ps[0]) + tail && s[0] == SP;
      assert ReadParam(s[1..]) == Done(ps[0], tail) by { ReadRenderedParam(ps[0], tail); }
      ReadRenderedParams(ps[1..], rest);
      assert [ps[0]] + ps[1..] == ps;
    }
  }

  /** "[" SD-ID and parameters: the reader gets the name, and of the parameters what ReadParams gets. */
  lemma ReadElementOf(id: bytes, tail: bytes)
    requires IsName(id) && tail != [] && !IsNameByte(tail[0]) && ReadParams(tail).Done?
    ensures ReadElement([OPEN] + (id + tail)) == Done(Element(id, ReadParams(tail).value), ReadParams(tail).rest)
  {
    var s := [OPEN] + (id + tail);
    assert s[1..] == id + tail;
    NameLengthOf(id, tail);
    assert s[1 + |id|..] == tail && s[1..1 + |id|] == id;
  }

  /** The reader gives back exactly the element that was rendered, and what follows it. */
  lemma ReadRendered(e: Element, rest: bytes)
    requires WellFormed(e)
    ensures ReadElement(Render(e) + rest) == Done(e, rest)
  {
    var tail := RenderParams(e.params) + [CLOSE] + rest;
    assert tail[0] == SP || tail[0] == CLOSE;
    assert ReadParams(tail) == Done(e.params, rest) by { ReadRenderedParams(e.params, rest); }
    ReadElementOf(e.id, tail);
    Concat5([OPEN], e.id, RenderParams(e.params), [CLOSE], rest);
  }
}
