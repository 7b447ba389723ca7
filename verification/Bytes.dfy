/** Go strings as byte sequences, and the few functions of `strings` and `strconv` the pipeline uses. */
module Bytes {
  import opened Wrappers

  type byte = b: int | 0 <= b < 256
  type bytes = seq<byte>

  const LF: byte := 10
  const CR: byte := 13
  const SP: byte := 32
  const QUOTE: byte := 34
  const PLUS: byte := 43
  const MINUS: byte := 45
  const ZERO: byte := 48
  const NINE: byte := 57
  const LT: byte := 60
  const EQ: byte := 61
  const GT: byte := 62
  const OPEN: byte := 91
  const BACKSLASH: byte := 92
  const CLOSE: byte := 93
  const UNDERSCORE: byte := 95

  /** A string literal as bytes; the literals of this project are US-ASCII. */
  function Ascii(s: string): (b: bytes)
    ensures |b| == |s|
    ensures forall i :: 0 <= i < |s| ==> b[i] == s[i] as int % 256
  {
    seq(|s|, i requires 0 <= i < |s| => s[i] as int % 256)
  }

  lemma Concat5(a: bytes, b: bytes, c: bytes, d: bytes, e: bytes)
    ensures a + b + c + d + e == a + (b + (c + d + e))
  {
  }

  predicate HasPrefix(s: bytes, prefix: bytes) {
    prefix <= s
  }

  /** strings.TrimPrefix */
  function TrimPrefix(s: bytes, prefix: bytes): bytes {
    if prefix <= s then s[|prefix|..] else s
  }

  /** strings.IndexByte, with |s| for "not found". */
  function IndexOf(s: bytes, b: byte): (i: nat)
    ensures i <= |s|
  {
    if s == [] || s[0] == b then 0 else 1 + IndexOf(s[1..], b)
  }

  /** What is in front of the first separator, and what is behind it. */
  lemma {:induction false} CutAtIndex(s: bytes, b: byte)
    requires IndexOf(s, b) < |s|
    ensures var i := IndexOf(s, b); s == s[..i] + [b] + s[i + 1..] && b !in s[..i]
  {
    if s[0] != b {
      var i := IndexOf(s, b);
      CutAtIndex(s[1..], b);
      assert s[..i] == [s[0]] + s[1..][..i - 1];
      assert s[i + 1..] == s[1..][i..];
      assert s[i] == s[1..][i - 1];
    }
  }

  /** The first separator is where a prefix without separators ends. */
  lemma {:induction false} IndexOfAfter(p: bytes, b: byte, rest: bytes)
    requires b !in p
    ensures IndexOf(p + [b] + rest, b) == |p|
  {
    var s := p + [b] + rest;
    if p != [] {
      assert s[0] == p[0] && s[1..] == p[1..] + [b] + rest;
      IndexOfAfter(p[1..], b, rest);
    }
  }

  /** strings.TrimRight(s, "\r\n") */
  function TrimLineEnd(s: bytes): bytes {
    if s != [] && (s[|s| - 1] == CR || s[|s| - 1] == LF) then TrimLineEnd(s[..|s| - 1]) else s
  }

  predicate EndsInLineBreak(s: bytes) {
    s != [] && (s[|s| - 1] == CR || s[|s| - 1] == LF)
  }

  /** Trimming removes line-break bytes from the end only, and all of them. */
  lemma {:induction false} TrimLineEndCuts(s: bytes)
    ensures TrimLineEnd(s) <= s
    ensures !EndsInLineBreak(TrimLineEnd(s))
    ensures forall k :: |TrimLineEnd(s)| <= k < |s| ==> s[k] == CR || s[k] == LF
  {
    if EndsInLineBreak(s) {
      TrimLineEndCuts(s[..|s| - 1]);
    }
  }

  predicate IsDigit(b: byte) {
    ZERO <= b <= NINE
  }

  predicate AllDigits(s: bytes) {
    forall i :: 0 <= i < |s| ==> IsDigit(s[i])
  }

  /** Decimal digits of a natural number. */
  function Digits(n: nat): bytes {
    if n < 10 then [ZERO + n] else Digits(n / 10) + [ZERO + n % 10]
  }

  /** strconv.Itoa */
  function Itoa(n: int): bytes {
    if n < 0 then [MINUS] + Digits(-n) else Digits(n)
  }

  /** The number a digit string denotes. */
  function Value(s: bytes): nat
    requires AllDigits(s)
  {
    if s == [] then 0 else Value(s[..|s| - 1]) * 10 + (s[|s| - 1] - ZERO)
  }

  /** strconv.Atoi for inputs too short to overflow: an optional sign, then at least one digit. */
  function Atoi(s: bytes): Option<int> {
    var signed := s != [] && (s[0] == PLUS || s[0] == MINUS);
    var digits := if signed then s[1..] else s;
    if digits == [] || !AllDigits(digits) then None
    else
      var v: int := Value(digits);
      Some(if signed && s[0] == MINUS then -v else v)
  }

  /** Reading the printed digits gives the number back; no leading zero except for 0 itself. */
  lemma {:induction false} DigitsRoundTrip(n: nat)
    ensures AllDigits(Digits(n)) && Digits(n) != []
    ensures Value(Digits(n)) == n
    ensures Digits(n)[0] == ZERO <==> n == 0
  {
    if n >= 10 {
      DigitsRoundTrip(n / 10);
      var front := Digits(n / 10);
      assert Digits(n)[..|Digits(n)| - 1] == front;
      assert Digits(n)[0] == front[0];
    } else {
      assert Digits(n)[..0] == [];
    }
  }

  lemma ItoaRoundTrip(n: int)
    ensures Atoi(Itoa(n)) == Some(n)
    ensures forall i :: 0 <= i < |Itoa(n)| ==> Itoa(n)[i] == MINUS || IsDigit(Itoa(n)[i])
  {
    DigitsRoundTrip(if n < 0 then -n else n);
    if n < 0 {
      assert Itoa(n)[1..] == Digits(-n);
    }
  }

  /** bytes.Join(lines, nil) */
  function Join(lines: seq<bytes>): bytes {
    if lines == [] then [] else Join(lines[..|lines| - 1]) + lines[|lines| - 1]
  }

  lemma {:induction false} JoinAppend(a: seq<bytes>, b: seq<bytes>)
    ensures Join(a + b) == Join(a) + Join(b)
  {
    if b == [] {
      assert a + b == a;
    } else {
      JoinAppend(a, b[..|b| - 1]);
      assert (a + b)[..|a + b| - 1] == a + b[..|b| - 1];
    }
  }

  /** Where the i-th of the lines starts. */
  function StartOf(lines: seq<bytes>, i: nat): nat
    requires i <= |lines|
  {
    if i == 0 then 0 else StartOf(lines, i - 1) + |lines[i - 1]|
  }

  lemma {:induction false} StartInPrefix(lines: seq<bytes>, n: nat, i: nat)
    requires i <= n <= |lines|
    ensures StartOf(lines[..n], i) == StartOf(lines, i)
  {
    if i > 0 {
      StartInPrefix(lines, n, i - 1);
    }
  }

  /** s holds the line from the given position on. */
  predicate StandsAt(s: bytes, line: bytes, from: nat) {
    from + |line| <= |s| && s[from..from + |line|] == line
  }

  lemma StandsInConcat(a: bytes, b: bytes, line: bytes, from: nat)
    ensures StandsAt(a, line, from) ==> StandsAt(a + b, line, from)
    ensures StandsAt(a + b, b, |a|)
  {
    if StandsAt(a, line, from) {
      assert (a + b)[from..from + |line|] == a[from..from + |line|];
    }
  }

  /** Joined lines stand one behind the other, with nothing between, in front or behind. */
  lemma {:induction false} JoinedLineStands(lines: seq<bytes>, i: nat)
    requires i < |lines|
    ensures StandsAt(Join(lines), lines[i], StartOf(lines, i))
    ensures |Join(lines)| == StartOf(lines, |lines|)
  {
    var n := |lines| - 1;
    var init := lines[..n];
    StandsInConcat(Join(init), lines[n], lines[i], StartOf(lines, i));
    StartInPrefix(lines, n, n);
    if i < n {
      StartInPrefix(lines, n, i);
    }
    if n > 0 {
      JoinedLineStands(init, if i < n then i else 0);
    }
  }
}
