/** internal/syslog/parse.go: reading one RFC 5424 message. */
module SyslogParse {
  import opened Bytes
  import opened Wrappers

  const BOM: bytes := [0xEF, 0xBB, 0xBF]

  /** An instant in nanoseconds since the Unix epoch. */
  type Instant = int

  /** Go's zero time, 0001-01-01T00:00:00Z; Message.Time when the sender gave none. */
  const ZERO_TIME: Instant := -62135596800 * 1000000000

  /** time.Parse(time.RFC3339Nano, s): an arbitrary partial function, the calendar is not modelled. */
  type TimeReader = bytes -> Option<Instant>

  datatype Message = Message(severity: nat, time: Instant, hostname: bytes, appName: bytes, text: bytes)

  function NilValue(s: bytes): bytes {
    if s == [MINUS] then [] else s
  }

  // --- skipStructuredData -----------------------------------------------------------------------

  /** What follows the bracket that closes the element s is inside of, None if it is never closed. */
  function ScanElement(s: bytes, inQuote: bool): (r: Option<bytes>)
    ensures r.Some? ==> |r.value| < |s|
  {
    if s == [] then None
    else if s[0] == BACKSLASH && |s| > 1 then ScanElement(s[2..], inQuote)
    else if s[0] == QUOTE then ScanElement(s[1..], !inQuote)
    else if s[0] == CLOSE && !inQuote then Some(s[1..])
    else ScanElement(s[1..], inQuote)
  }

  /** What follows the elements at the start of s. */
  function SkipElements(s: bytes): Option<bytes>
    decreases |s|
  {
    if s == [] || s[0] != OPEN then Some(s)
    else
      match ScanElement(s[1..], false)
      case None => None
      case Some(rest) => SkipElements(rest)
  }

  /** What follows the STRUCTURED-DATA field. */
  function SkipSd(s: bytes): Option<bytes> {
    if s != [] && s[0] == MINUS then Some(s[1..])
    else if s == [] || s[0] != OPEN then None
    else SkipElements(s)
  }

  function ToResult<T>(o: Option<T>): Result<T> {
    match o
    case None => Err
    case Some(v) => Ok(v)
  }

  method SkipStructuredData(s: bytes) returns (r: Result<bytes>)
    ensures r == ToResult(SkipSd(s))
  {
    if HasPrefix(s, [MINUS]) {
      return Ok(s[1..]);
    }
    var pos := 0;
    while pos < |s| && s[pos] == OPEN
      invariant pos <= |s|
      invariant SkipElements(s[pos..]) == SkipElements(s)
      invariant pos > 0 ==> s[0] == OPEN
      decreases |s| - pos
    {
      ghost var start := pos;
      pos := pos + 1;
      var inQuote, closed := false, false;
      while pos < |s| && !closed
        invariant start < pos <= |s|
        invariant ScanElement(s[start + 1..], false)
               == if closed then Some(s[pos..]) else ScanElement(s[pos..], inQuote)
        decreases |s| - pos
      {
        var c := s[pos];
        if c == BACKSLASH && pos + 1 < |s| {
          assert s[pos..][2..] == s[pos + 2..];
          pos := pos + 1;
        } else if c == QUOTE {
          assert s[pos..][1..] == s[pos + 1..];
          inQuote := !inQuote;
        } else if c == CLOSE && !inQuote {
          assert s[pos..][1..] == s[pos + 1..];
          closed := true;
        } else {
          assert s[pos..][1..] == s[pos + 1..];
        }
        pos := pos + 1;
      }
      assert s[start..][1..] == s[start + 1..];
      if !closed {
        return Err;
      }
    }
    if pos == 0 {
      return Err;
    }
    return Ok(s[pos..]);
  }

  // --- Parse --------------------------------------------------------------------------------

  datatype Cut = Cut(fields: seq<bytes>, rest: bytes)

  /** n space-terminated fields, each cut off with strings.Cut(s, " "), and what follows them. */
  function CutFields(s: bytes, n: nat): (c: Option<Cut>)
    ensures c.Some? ==> |c.value.fields| == n
    decreases |s|
  {
    if n == 0 then Some(Cut([], s))
    else
      var i := IndexOf(s, SP);
      if i == |s| then None
      else
        match CutFields(s[i + 1..], n - 1)
        case None => None
        case Some(c) => Some(Cut([s[..i]] + c.fields, c.rest))
  }

  /** <PRI>: the number between '<' and the first '>' and what follows. */
  datatype Priority = Priority(pri: nat, rest: bytes)

  function ReadPriority(s: bytes): (p: Option<Priority>)
    ensures p.Some? ==> p.value.pri <= 191
  {
    var end := IndexOf(s, GT);
    if s == [] || s[0] != LT || end == |s| || end < 2 || end > 4 then None
    else
      match Atoi(s[1..end])
      case None => None
      case Some(pri) => if pri < 0 || pri > 191 then None else Some(Priority(pri, s[end + 1..]))
  }

  /** The text behind the structured data: nothing, or a space and the message. */
  function ReadText(rest: bytes): Option<bytes> {
    if rest == [] then Some([])
    else if rest[0] != SP then None
    else Some(TrimLineEnd(TrimPrefix(rest[1..], BOM)))
  }

  function ReadTime(field: bytes, read: TimeReader): Instant {
    if field == [MINUS] || read(field).None? then ZERO_TIME else read(field).value
  }

  /** The message with this priority and header. */
  function ParseBody(pri: nat, h: Cut, read: TimeReader): Option<Message>
    requires |h.fields| == 6
  {
    if h.fields[0] != [49] then None // version "1"
    else
      match SkipSd(h.rest)
      case None => None
      case Some(rest) =>
        match ReadText(rest)
        case None => None
        case Some(text) =>
          Some(Message(pri % 8, ReadTime(h.fields[1], read), NilValue(h.fields[2]), NilValue(h.fields[3]), text))
  }

  function ParseMessage(packet: bytes, read: TimeReader): Option<Message> {
    match ReadPriority(packet)
    case None => None
    case Some(p) =>
      match CutFields(p.rest, 6)
      case None => None
      case Some(h) => ParseBody(p.pri, h, read)
  }

  /** Some fields and those that are still to be cut. */
  function Behind(done: seq<bytes>, more: Option<Cut>): Option<Cut> {
    match more
    case None => None
    case Some(c) => Some(Cut(done + c.fields, c.rest))
  }

  lemma BehindNothing(more: Option<Cut>)
    ensures Behind([], more) == more
  {
    assert more.Some? ==> [] + more.value.fields == more.value.fields;
  }

  lemma CutFirst(done: seq<bytes>, s: bytes, n: nat, field: bytes, tail: bytes)
    requires n > 0 && IndexOf(s, SP) < |s| && field == s[..IndexOf(s, SP)] && tail == s[IndexOf(s, SP) + 1..]
    ensures Behind(done, CutFields(s, n)) == Behind(done + [field], CutFields(tail, n - 1))
  {
    var more := CutFields(tail, n - 1);
    if more.Some? {
      assert done + ([field] + more.value.fields) == done + [field] + more.value.fields;
    }
  }

  /** VERSION TIMESTAMP HOSTNAME APP-NAME PROCID MSGID: the loop of Parse that fills header. */
  method CutHeader(s: bytes) returns (header: array<bytes>, rest: bytes, ok: bool)
    ensures fresh(header) && header.Length == 6
    ensures ok ==> CutFields(s, 6) == Some(Cut(header[..], rest))
    ensures !ok ==> CutFields(s, 6) == None
  {
    header := new bytes[6](_ => []);
    rest := s;
    var i := 0;
    ghost var all, done: seq<bytes> := CutFields(s, 6), [];
    ghost var left: nat := 6;
    BehindNothing(all);
    while i < header.Length
      invariant 0 <= i <= 6 && done == header[..i] && left == 6 - i
      invariant all == Behind(done, CutFields(rest, left))
    {
      var space := IndexOf(rest, SP);
      if space == |rest| {
        return header, rest, false;
      }
      var field, remainder := rest[..space], rest[space + 1..];
      CutFirst(done, rest, left, field, remainder);
      done, left := done + [field], left - 1;
      header[i], rest := field, remainder;
      i := i + 1;
    }
    assert done == header[..];
    assert done + [] == done;
    ok := true;
  }

  method Parse(packet: bytes, read: TimeReader) returns (r: Result<Message>)
    ensures r == ToResult(ParseMessage(packet, read))
  {
    var s := packet;
    if !HasPrefix(s, [LT]) {
      return Err;
    }
    var end := IndexOf(s, GT);
    if end == |s| || end < 2 || end > 4 {
      return Err;
    }
    var atoi := Atoi(s[1..end]);
    if atoi.None? || atoi.value < 0 || atoi.value > 191 {
      return Err;
    }
    var pri := atoi.value;
    var rest := s[end + 1..];

    var header, remainder, ok := CutHeader(rest);
    if !ok {
      return Err;
    }
    rest := remainder;
    ghost var h := Cut(header[..], rest);
    assert ParseMessage(packet, read) == ParseBody(pri, h, read);
    if header[0] != [49] {
      return Err;
    }

    var skipped := SkipStructuredData(rest);
    if skipped.Err? {
      return Err;
    }
    rest := skipped.value;
    var text: bytes := [];
    if rest != [] {
      if rest[0] != SP {
        return Err;
      }
      text := TrimPrefix(rest[1..], BOM);
    }
    assert ReadText(rest) == Some(TrimLineEnd(text));

    var msg := Message(pri % 8, ZERO_TIME, NilValue(header[2]), NilValue(header[3]), TrimLineEnd(text));
    if header[1] != [MINUS] {
      var t := read(header[1]);
      if t.Some? {
        msg := msg.(time := t.value);
      }
    }
    return Ok(msg);
  }
}
