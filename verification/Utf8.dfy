/** UTF-8 as in section 4 of RFC 3629, read the way Go's `range` over a string and `unicode/utf8` do. */
module Utf8 {
  import opened Bytes

  /** What Go decodes where no encoded character starts. */
  const RUNE_ERROR := 0xFFFD

  predicate IsTail(b: byte) {
    0x80 <= b <= 0xBF
  }

  /** utf8.RuneStart: not a continuation byte. */
  predicate RuneStart(b: byte) {
    !IsTail(b)
  }

  /** The length of the encoded character at the start of s, 0 if there is none (RFC 3629, section 4). */
  function CharWidth(s: bytes): (w: nat)
    ensures w <= 4 && w <= |s|
  {
    if s == [] then 0
    else if s[0] <= 0x7F then 1
    else if |s| < 2 || !IsTail(s[1]) then 0
    else if 0xC2 <= s[0] <= 0xDF then 2
    else if |s| < 3 || !IsTail(s[2]) then 0
    else if s[0] == 0xE0 then (if 0xA0 <= s[1] then 3 else 0)
    else if s[0] == 0xED then (if s[1] <= 0x9F then 3 else 0)
    else if 0xE1 <= s[0] <= 0xEF then 3
    else if |s| < 4 || !IsTail(s[3]) then 0
    else if s[0] == 0xF0 then (if 0x90 <= s[1] then 4 else 0)
    else if 0xF1 <= s[0] <= 0xF3 then 4
    else if s[0] == 0xF4 then (if s[1] <= 0x8F then 4 else 0)
    else 0
  }

  /** The bits of an encoded byte without its marker. */
  function Payload(b: int, marker: int): int {
    b - marker
  }

  datatype Decoded = Decoded(rune: int, width: nat)

  /** utf8.DecodeRune on a non-empty string: an invalid byte is RUNE_ERROR of width 1. */
  function DecodeRune(s: bytes): (d: Decoded)
    requires s != []
    ensures 1 <= d.width <= |s|
    ensures d.rune < 0x80 <==> s[0] < 0x80
    ensures d.rune < 0x80 ==> d == Decoded(s[0], 1)
  {
    match CharWidth(s)
    case 1 => Decoded(s[0], 1)
    case 2 => Decoded(Payload(s[0], 0xC0) * 0x40 + Payload(s[1], 0x80), 2)
    case 3 => Decoded(Payload(s[0], 0xE0) * 0x1000 + Payload(s[1], 0x80) * 0x40 + Payload(s[2], 0x80), 3)
    case 4 => Decoded(Payload(s[0], 0xF0) * 0x40000 + Payload(s[1], 0x80) * 0x1000 + Payload(s[2], 0x80) * 0x40 + Payload(s[3], 0x80), 4)
    case _ => Decoded(RUNE_ERROR, 1)
  }

  /** The characters `range` visits. */
  function Runes(s: bytes): seq<int> {
    if s == [] then [] else [DecodeRune(s).rune] + Runes(s[DecodeRune(s).width..])
  }

  /** utf8.Valid: a concatenation of encoded characters. */
  predicate Valid(s: bytes) {
    s == [] || (CharWidth(s) > 0 && Valid(s[CharWidth(s)..]))
  }

  /** Position p lies between two characters of s. */
  predicate Boundary(s: bytes, p: nat) {
    p == 0 || (0 < CharWidth(s) <= p && Boundary(s[CharWidth(s)..], p - CharWidth(s)))
  }

  /** No encoded character is the beginning of another one. */
  lemma CharWidthOfPrefix(s: bytes, p: nat)
    requires p <= |s|
    ensures CharWidth(s[..p]) > 0 ==> CharWidth(s) == CharWidth(s[..p])
    ensures 0 < CharWidth(s) <= p ==> CharWidth(s[..p]) == CharWidth(s)
  {
  }

  /** Cutting a valid string leaves valid strings exactly at its character boundaries. */
  lemma {:induction false} ValidUpTo(s: bytes, p: nat)
    requires Valid(s) && p <= |s|
    ensures Boundary(s, p) <==> Valid(s[..p])
    ensures Boundary(s, p) ==> Valid(s[p..])
    decreases |s|
  {
    var w := CharWidth(s);
    CharWidthOfPrefix(s, p);
    if p == 0 {
      assert s[0..] == s;
    } else if w <= p {
      ValidUpTo(s[w..], p - w);
      assert s[..p][w..] == s[w..][..p - w];
      assert s[w..][p - w..] == s[p..];
    }
  }

  /** In a valid string the character boundaries are exactly the bytes Go's RuneStart accepts. */
  lemma {:induction false} BoundaryIffRuneStart(s: bytes, p: nat)
    requires Valid(s) && p < |s|
    ensures Boundary(s, p) <==> RuneStart(s[p])
    decreases |s|
  {
    var w := CharWidth(s);
    if p >= w {
      assert s[p] == s[w..][p - w];
      BoundaryIffRuneStart(s[w..], p - w);
    }
  }

  lemma {:induction false} ValidConcat(a: bytes, b: bytes)
    requires Valid(a) && Valid(b)
    ensures Valid(a + b)
    decreases |a|
  {
    if a == [] {
      assert a + b == b;
    } else {
      var w := CharWidth(a);
      CharWidthOfPrefix(a + b, |a|);
      assert (a + b)[..|a|] == a;
      assert (a + b)[w..] == a[w..] + b;
      ValidConcat(a[w..], b);
    }
  }

  /** Removing a final US-ASCII byte keeps a string valid. */
  lemma ValidWithoutLastAscii(s: bytes)
    requires Valid(s) && s != [] && s[|s| - 1] < 0x80
    ensures Valid(s[..|s| - 1])
  {
    BoundaryIffRuneStart(s, |s| - 1);
    ValidUpTo(s, |s| - 1);
  }

  lemma {:induction false} TrimKeepsValid(s: bytes)
    requires Valid(s)
    ensures Valid(TrimLineEnd(s))
    decreases |s|
  {
    if EndsInLineBreak(s) {
      ValidWithoutLastAscii(s);
      TrimKeepsValid(s[..|s| - 1]);
    }
  }

  lemma {:induction false} AsciiIsValid(s: bytes)
    requires forall i :: 0 <= i < |s| ==> s[i] < 0x80
    ensures Valid(s)
  {
    if s != [] {
      AsciiIsValid(s[1..]);
    }
  }
}
