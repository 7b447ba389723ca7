/** The records every package shares: internal/store/store.go and the enums of the shipping API. */
module Records {
  import opened Bytes

  datatype Source = Source(component: bytes, instance: bytes, version: bytes)

  /** One log line. Level and category are the raw enum values, any int32. */
  datatype Entry = Entry(
    sourceId: int, timestampMs: int, level: int, logger: bytes, message: bytes, category: int)

  /** Entries a component had to drop before they reached the collector. */
  datatype Gap = Gap(sourceId: int, dropped: int, fromMs: int, toMs: int)

  /** Where a uint64 counter goes back to 0. */
  const UINT64 := 0x1_0000_0000_0000_0000

  const LEVEL_DEBUG := 1
  const LEVEL_INFO := 2
  const LEVEL_WARNING := 3
  const LEVEL_ERROR := 4
  const LEVEL_CRITICAL := 5

  const CATEGORY_UNSPECIFIED := 0
  const CATEGORY_GENERAL := 1
  const CATEGORY_TRANSCRIPT := 2
  const CATEGORY_METADATA := 3

  /** The enum's name without "LOG_LEVEL_"; a number the enum does not know prints as itself. */
  function LevelName(level: int): bytes {
    if level == 0 then Ascii("UNSPECIFIED")
    else if level == LEVEL_DEBUG then Ascii("DEBUG")
    else if level == LEVEL_INFO then Ascii("INFO")
    else if level == LEVEL_WARNING then Ascii("WARNING")
    else if level == LEVEL_ERROR then Ascii("ERROR")
    else if level == LEVEL_CRITICAL then Ascii("CRITICAL")
    else Itoa(level)
  }

  /** The enum's name without "LOG_CATEGORY_"; a number the enum does not know prints as itself. */
  function CategoryName(category: int): bytes {
    if category == CATEGORY_UNSPECIFIED then Ascii("UNSPECIFIED")
    else if category == CATEGORY_GENERAL then Ascii("GENERAL")
    else if category == CATEGORY_TRANSCRIPT then Ascii("TRANSCRIPT")
    else if category == CATEGORY_METADATA then Ascii("METADATA")
    else Itoa(category)
  }

  /** The first byte: U, G, T or M for a name, a sign or digit for a number. */
  lemma CategoryNameStart(c: int)
    ensures CategoryName(c) != []
    ensures c == 0 ==> CategoryName(c)[0] == 85
    ensures c == 1 ==> CategoryName(c)[0] == 71
    ensures c == 2 ==> CategoryName(c)[0] == 84
    ensures c == 3 ==> CategoryName(c)[0] == 77
    ensures c !in {0, 1, 2, 3} ==> CategoryName(c)[0] <= NINE
  {
    ItoaRoundTrip(c);
    assert Ascii("UNSPECIFIED")[0] == 85 && Ascii("GENERAL")[0] == 71;
    assert Ascii("TRANSCRIPT")[0] == 84 && Ascii("METADATA")[0] == 77;
    if c !in {0, 1, 2, 3} {
      DigitsRoundTrip(if c < 0 then -c else c);
    }
  }

  /** A category can be told from its name: the four names differ, and no number prints as a name. */
  lemma CategoryNameInjective(a: int, b: int)
    requires CategoryName(a) == CategoryName(b)
    ensures a == b
  {
    CategoryNameStart(a);
    CategoryNameStart(b);
    assert CategoryName(a)[0] == CategoryName(b)[0];
    if a !in {0, 1, 2, 3} {
      ItoaRoundTrip(a);
      ItoaRoundTrip(b);
    }
  }

  /** The first byte: a letter for a name, a sign or digit for a number. */
  lemma LevelNameStart(l: int)
    ensures LevelName(l) != []
    ensures l == 0 ==> LevelName(l)[0] == 85
    ensures l == 1 ==> LevelName(l)[0] == 68
    ensures l == 2 ==> LevelName(l)[0] == 73
    ensures l == 3 ==> LevelName(l)[0] == 87
    ensures l == 4 ==> LevelName(l)[0] == 69
    ensures l == 5 ==> LevelName(l)[0] == 67
    ensures l !in {0, 1, 2, 3, 4, 5} ==> LevelName(l)[0] <= NINE
  {
    ItoaRoundTrip(l);
    assert Ascii("UNSPECIFIED")[0] == 85 && Ascii("DEBUG")[0] == 68 && Ascii("INFO")[0] == 73;
    assert Ascii("WARNING")[0] == 87 && Ascii("ERROR")[0] == 69 && Ascii("CRITICAL")[0] == 67;
    if l !in {0, 1, 2, 3, 4, 5} {
      DigitsRoundTrip(if l < 0 then -l else l);
    }
  }

  /** A level can be told from its name, too. */
  lemma LevelNameInjective(a: int, b: int)
    requires LevelName(a) == LevelName(b)
    ensures a == b
  {
    LevelNameStart(a);
    LevelNameStart(b);
    assert LevelName(a)[0] == LevelName(b)[0];
    if a !in {0, 1, 2, 3, 4, 5} {
      ItoaRoundTrip(a);
      ItoaRoundTrip(b);
    }
  }

  lemma LettersHoldNoSpace(s: string)
    requires forall i :: 0 <= i < |s| ==> 'A' <= s[i] <= 'Z'
    ensures SP !in Ascii(s)
  {
  }

  lemma LevelNameSpaceFree(l: int)
    ensures SP !in LevelName(l)
  {
    if l in {0, 1, 2, 3, 4, 5} {
      var s := if l == 0 then "UNSPECIFIED" else if l == 1 then "DEBUG" else if l == 2 then "INFO"
               else if l == 3 then "WARNING" else if l == 4 then "ERROR" else "CRITICAL";
      LettersHoldNoSpace(s);
      assert LevelName(l) == Ascii(s);
    } else {
      ItoaRoundTrip(l);
    }
  }

  /** Renders a Unix time in milliseconds: an arbitrary function, the calendar is not modelled. */
  type TimePrinter = int -> bytes
}
