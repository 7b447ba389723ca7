/** internal/export/export.go: the archive of a filter, one file per source plus a manifest. */
module Export {
  import opened Bytes
  import opened Wrappers
  import opened Records
  import opened Rows
  import opened Sections
  import opened Store
  import opened Subsequences

  const MANIFEST_NAME: bytes := Ascii("manifest.json")

  // --- Lines and names ----------------------------------------------------------------------

  /** The %-8s of FormatLine. */
  function Padded(s: bytes): bytes {
    if |s| >= 8 then s else s + seq(8 - |s|, _ => SP)
  }

  function FormatLine(e: Entry, clock: TimePrinter): bytes {
    clock(e.timestampMs) + [SP] + Padded(LevelName(e.level)) + [SP]
    + (if e.logger != [] then e.logger + Ascii(": ") else [])
    + e.message
    + (if e.message != [] && e.message[|e.message| - 1] == LF then [] else [LF])
  }

  /**
   * The entry's own text stands at the end of its line, with exactly one line break behind it unless it brings its own,
   * and in front of it the logger, if there is one, a colon and a space.
   */
  lemma FormatLineEnds(e: Entry, clock: TimePrinter)
    ensures var line := FormatLine(e, clock);
      var text := if e.message != [] && e.message[|e.message| - 1] == LF then e.message else e.message + [LF];
      && |text| < |line| && line[|line| - |text|..] == text
      && var front := line[..|line| - |text|];
      if e.logger == [] then front[|front| - 1] == SP
      else |e.logger| + 2 < |front| && front[|front| - |e.logger| - 2..] == e.logger + [58, SP]
  {
    var line := FormatLine(e, clock);
    var text := if e.message != [] && e.message[|e.message| - 1] == LF then e.message else e.message + [LF];
    var head := clock(e.timestampMs) + [SP] + Padded(LevelName(e.level)) + [SP];
    var logger := if e.logger != [] then e.logger + Ascii(": ") else [];
    assert Ascii(": ") == [58, SP];
    assert line == head + logger + text;
    assert line[..|line| - |text|] == head + logger;
  }

  /** What stands behind the level: the logger, if any, and the message with its line break. */
  function LineTail(e: Entry): bytes {
    (if e.logger != [] then e.logger + Ascii(": ") else [])
    + (if e.message != [] && e.message[|e.message| - 1] == LF then e.message else e.message + [LF])
  }

  /** The padding of a level as what follows its name. */
  function Padding(s: bytes): bytes {
    if |s| >= 8 then [SP] else seq(9 - |s|, _ => SP)
  }

  lemma FormatLineParts(e: Entry, clock: TimePrinter)
    ensures var name := LevelName(e.level);
      FormatLine(e, clock) == clock(e.timestampMs) + ([SP] + (name + ([SP] + (Padding(name)[1..] + LineTail(e)))))
  {
    var name := LevelName(e.level);
    assert Padded(name) + [SP] == name + ([SP] + Padding(name)[1..]);
  }

  lemma SplitAt(a: bytes, x: bytes, b: bytes, y: bytes)
    requires |a| == |b| && a + x == b + y
    ensures a == b && x == y
  {
    assert (a + x)[..|a|] == a && (b + y)[..|b|] == b;
    assert (a + x)[|a|..] == x && (b + y)[|b|..] == y;
  }

  /** What stands in front of a first space can be read back. */
  lemma SplitAtSpace(a: bytes, x: bytes, b: bytes, y: bytes)
    requires SP !in a && SP !in b && a + ([SP] + x) == b + ([SP] + y)
    ensures a == b && x == y
  {
    assert a + [SP] + x == a + ([SP] + x) && b + [SP] + y == b + ([SP] + y);
    IndexOfAfter(a, SP, x);
    IndexOfAfter(b, SP, y);
    SplitAt(a, [SP] + x, b, [SP] + y);
    SplitAt([SP], x, [SP], y);
  }

  /**
   * A line tells its time and its level, known to the enum or not, and leaves the rest: of timestamps
   * printed equally long, lines that look alike have the same timestamp, level and tail.
   */
  lemma {:induction false} FormatLineTells(a: Entry, b: Entry, clock: TimePrinter)
    requires |clock(a.timestampMs)| == |clock(b.timestampMs)|
    ensures FormatLine(a, clock) == FormatLine(b, clock)
       <==> clock(a.timestampMs) == clock(b.timestampMs) && a.level == b.level && LineTail(a) == LineTail(b)
  {
    var na, nb := LevelName(a.level), LevelName(b.level);
    FormatLineParts(a, clock);
    FormatLineParts(b, clock);
    if FormatLine(a, clock) == FormatLine(b, clock) {
      var ra, rb := Padding(na)[1..] + LineTail(a), Padding(nb)[1..] + LineTail(b);
      SplitAt(clock(a.timestampMs), [SP] + (na + ([SP] + ra)), clock(b.timestampMs), [SP] + (nb + ([SP] + rb)));
      SplitAt([SP], na + ([SP] + ra), [SP], nb + ([SP] + rb));
      LevelNameSpaceFree(a.level);
      LevelNameSpaceFree(b.level);
      SplitAtSpace(na, ra, nb, rb);
      LevelNameInjective(a.level, b.level);
      SplitAt(Padding(na)[1..], LineTail(a), Padding(nb)[1..], LineTail(b));
    }
  }

  /** The lines of some rows, one after the other. */
  function Content(rows: seq<Row>, clock: TimePrinter): bytes {
    if rows == [] then [] else Content(rows[..|rows| - 1], clock) + FormatLine(rows[|rows| - 1].entry, clock)
  }

  function LinesOf(rows: seq<Row>, clock: TimePrinter): seq<bytes> {
    seq(|rows|, i requires 0 <= i < |rows| => FormatLine(rows[i].entry, clock))
  }

  lemma {:induction false} ContentIsJoin(rows: seq<Row>, clock: TimePrinter)
    ensures Content(rows, clock) == Join(LinesOf(rows, clock))
  {
    if rows != [] {
      var n := |rows| - 1;
      ContentIsJoin(rows[..n], clock);
      assert LinesOf(rows, clock)[..n] == LinesOf(rows[..n], clock);
    }
  }

  /** A file holds the line of each of its rows, one behind the other, and nothing else. */
  lemma LineInPlace(rows: seq<Row>, i: nat, clock: TimePrinter)
    requires i < |rows|
    ensures StandsAt(Content(rows, clock), FormatLine(rows[i].entry, clock), StartOf(LinesOf(rows, clock), i))
    ensures |Content(rows, clock)| == StartOf(LinesOf(rows, clock), |rows|)
  {
    ContentIsJoin(rows, clock);
    JoinedLineStands(LinesOf(rows, clock), i);
  }

  predicate IsSafe(b: byte) {
    (65 <= b <= 90) || (97 <= b <= 122) || IsDigit(b) || b == 46 || b == UNDERSCORE || b == MINUS
  }

  /** Each run of other bytes becomes one underscore; no byte of a character outside US-ASCII is safe. */
  function Safe(s: bytes, inRun: bool): bytes {
    if s == [] then []
    else if IsSafe(s[0]) then [s[0]] + Safe(s[1..], false)
    else (if inRun then [] else [UNDERSCORE]) + Safe(s[1..], true)
  }

  /** The part of a file name an instance adds. */
  function InstancePart(instance: bytes): bytes {
    if instance != [] then [MINUS] + Safe(instance, false) else []
  }

  function FileName(component: bytes, instance: bytes): bytes {
    Safe(component, false) + InstancePart(instance) + Ascii(".log")
  }

  predicate AllSafe(s: bytes) {
    forall i :: 0 <= i < |s| ==> IsSafe(s[i])
  }

  predicate NoneSafe(s: bytes) {
    forall i :: 0 <= i < |s| ==> !IsSafe(s[i])
  }

  lemma {:induction false} SafeInRun(run: bytes, b: bytes)
    requires NoneSafe(run)
    ensures Safe(run + b, true) == Safe(b, true)
  {
    if run == [] {
      assert run + b == b;
    } else {
      assert (run + b)[1..] == run[1..] + b;
      SafeInRun(run[1..], b);
    }
  }

  /** Safe bytes stay, and a whole run of others becomes one underscore. */
  lemma {:induction false} RunsBecomeUnderscores(a: bytes, run: bytes, b: bytes, inRun: bool)
    requires AllSafe(a) && run != [] && NoneSafe(run) && (b == [] || IsSafe(b[0])) && (a == [] ==> !inRun)
    ensures Safe(a + run + b, inRun) == a + [UNDERSCORE] + Safe(b, false)
  {
    var s := a + run + b;
    if a == [] {
      assert s == [run[0]] + (run[1..] + b) && s[1..] == run[1..] + b;
      SafeInRun(run[1..], b);
      assert Safe(b, true) == Safe(b, false);
    } else {
      assert s[1..] == a[1..] + run + b;
      RunsBecomeUnderscores(a[1..], run, b, false);
      assert a == [a[0]] + a[1..];
    }
  }

  lemma SafeConcat(a: bytes, b: bytes)
    requires AllSafe(a) && AllSafe(b)
    ensures AllSafe(a + b)
  {
  }

  lemma {:induction false} SafeBytes(s: bytes, inRun: bool)
    ensures AllSafe(Safe(s, inRun))
    ensures AllSafe(s) ==> Safe(s, inRun) == s
  {
    if s != [] {
      SafeBytes(s[1..], !IsSafe(s[0]));
      assert [s[0]] + s[1..] == s;
    }
  }

  /** A file name holds only safe bytes; component and instance that hold no others are kept as they are. */
  lemma FileNameIsSafe(component: bytes, instance: bytes)
    ensures AllSafe(FileName(component, instance))
    ensures AllSafe(component) && AllSafe(instance) ==>
      FileName(component, instance) == component + (if instance != [] then [MINUS] + instance else []) + Ascii(".log")
  {
    var c, i := Safe(component, false), InstancePart(instance);
    SafeBytes(component, false);
    SafeBytes(instance, false);
    SafeConcat([MINUS], Safe(instance, false));
    SafeConcat(c, i);
    SafeConcat(c + i, Ascii(".log"));
  }

  /** The component of the second looks like that of the first with a dash and the start of its instance. */
  predicate Borrows(c1: bytes, i1: bytes, c2: bytes, i2: bytes) {
    var dashed, s2 := Safe(c1, false) + [MINUS], Safe(c2, false);
    i1 != [] && dashed <= s2 && Safe(i1, false) == s2[|dashed|..] + InstancePart(i2)
  }

  lemma DropSuffix(a: bytes, b: bytes, suffix: bytes)
    ensures a + suffix == b + suffix <==> a == b
  {
    if a + suffix == b + suffix {
      SplitAt(a, suffix, b, suffix);
    }
  }

  lemma OverlapIff(s1: bytes, p1: bytes, s2: bytes, p2: bytes)
    requires |s1| < |s2|
    ensures s1 + p1 == s2 + p2 <==> s1 <= s2 && p1 == s2[|s1|..] + p2
  {
    if s1 + p1 == s2 + p2 {
      assert s1 == s2[..|s1|] by { assert (s1 + p1)[..|s1|] == (s2 + p2)[..|s1|]; }
      assert s2 + p2 == s1 + (s2[|s1|..] + p2);
      SplitAt(s1, p1, s1, s2[|s1|..] + p2);
    }
    if s1 <= s2 && p1 == s2[|s1|..] + p2 {
      assert s2 == s1 + s2[|s1|..];
    }
  }

  lemma SplitFirst(a: byte, x: bytes, b: byte, y: bytes)
    ensures [a] + x == [b] + y <==> a == b && x == y
  {
    if [a] + x == [b] + y {
      SplitAt([a], x, [b], y);
    }
  }

  lemma DashedOverlap(s1: bytes, x: bytes, s2: bytes, p2: bytes)
    requires |s1| < |s2|
    ensures s1 <= s2 && [MINUS] + x == s2[|s1|..] + p2
       <==> s1 + [MINUS] <= s2 && x == s2[|s1| + 1..] + p2
  {
    if s1 <= s2 {
      var more := s2[|s1|..];
      assert more == [more[0]] + s2[|s1| + 1..];
      assert more + p2 == [more[0]] + (s2[|s1| + 1..] + p2);
      SplitFirst(MINUS, x, more[0], s2[|s1| + 1..] + p2);
      assert s1 + [MINUS] <= s2 <==> more[0] == MINUS;
    } else {
      assert s1 <= s1 + [MINUS];
    }
  }

  /** The longer component reaches into the instance of the other. */
  lemma LongerBorrows(c1: bytes, i1: bytes, c2: bytes, i2: bytes)
    requires |Safe(c1, false)| < |Safe(c2, false)|
    ensures Safe(c1, false) + InstancePart(i1) == Safe(c2, false) + InstancePart(i2) <==> Borrows(c1, i1, c2, i2)
  {
    var s1, s2, p2 := Safe(c1, false), Safe(c2, false), InstancePart(i2);
    OverlapIff(s1, InstancePart(i1), s2, p2);
    if i1 != [] {
      DashedOverlap(s1, Safe(i1, false), s2, p2);
    }
  }

  /** Component and instance look the same in a file name. */
  predicate LookAlike(c1: bytes, i1: bytes, c2: bytes, i2: bytes) {
    Safe(c1, false) == Safe(c2, false) && Safe(i1, false) == Safe(i2, false) && (i1 == [] <==> i2 == [])
  }

  /**
   * When two sources get the same file name: their names look the same, or a component contains a dash
   * that in the other name stands in front of the instance.
   */
  lemma {:induction false} FileNamesCollideIff(c1: bytes, i1: bytes, c2: bytes, i2: bytes)
    ensures FileName(c1, i1) == FileName(c2, i2)
       <==> LookAlike(c1, i1, c2, i2) || Borrows(c1, i1, c2, i2) || Borrows(c2, i2, c1, i1)
  {
    var s1, s2, p1, p2 := Safe(c1, false), Safe(c2, false), InstancePart(i1), InstancePart(i2);
    DropSuffix(s1 + p1, s2 + p2, Ascii(".log"));
    if |s1| < |s2| {
      LongerBorrows(c1, i1, c2, i2);
    } else if |s2| < |s1| {
      LongerBorrows(c2, i2, c1, i1);
    } else {
      if s1 + p1 == s2 + p2 {
        SplitAt(s1, p1, s2, p2);
        if i1 != [] {
          SplitAt([MINUS], Safe(i1, false), [MINUS], Safe(i2, false));
        }
      }
    }
  }

  lemma {:induction false} DashIsKept(s: bytes, inRun: bool)
    ensures MINUS in Safe(s, inRun) <==> MINUS in s
  {
    if s != [] {
      DashIsKept(s[1..], !IsSafe(s[0]));
      assert s == [s[0]] + s[1..];
    }
  }

  lemma BorrowedDash(s1: bytes, s2: bytes)
    ensures s1 + [MINUS] <= s2 ==> MINUS in s2
  {
    if s1 + [MINUS] <= s2 {
      assert s2[|s1|] == (s1 + [MINUS])[|s1|];
    }
  }

  /** Without a dash in the components only names that look the same collide. */
  lemma {:induction false} DashFreeCollideIff(c1: bytes, i1: bytes, c2: bytes, i2: bytes)
    requires MINUS !in c1 && MINUS !in c2
    ensures FileName(c1, i1) == FileName(c2, i2) <==> LookAlike(c1, i1, c2, i2)
  {
    FileNamesCollideIff(c1, i1, c2, i2);
    DashIsKept(c1, false);
    DashIsKept(c2, false);
    BorrowedDash(Safe(c1, false), Safe(c2, false));
    BorrowedDash(Safe(c2, false), Safe(c1, false));
  }

  /** Both causes: an unsafe byte looks like an underscore, and a dash may stand in either part. */
  lemma FileNamesCollide()
    ensures FileName(Ascii("a b"), []) == FileName(Ascii("a_b"), [])
    ensures FileName(Ascii("a-b"), []) == FileName(Ascii("a"), Ascii("b"))
  {
    assert Ascii("a b") == [97, SP, 98] && Ascii("a_b") == [97, UNDERSCORE, 98];
    assert [97, SP, 98][1..] == [SP, 98] && [SP, 98][1..] == [98] && [98][1..] == [];
    assert [97, UNDERSCORE, 98][1..] == [UNDERSCORE, 98] && [UNDERSCORE, 98][1..] == [98];
    assert Safe([98], true) == [98] && Safe([98], false) == [98];
    assert Safe([SP, 98], false) == [UNDERSCORE] + Safe([98], true);
    assert Safe([UNDERSCORE, 98], false) == [UNDERSCORE] + Safe([98], false);
    assert Ascii("a-b") == [97] + [MINUS] + [98] && Ascii("a") == [97] && Ascii("b") == [98];
    FileNameIsSafe(Ascii("a-b"), []);
    FileNameIsSafe(Ascii("a"), Ascii("b"));
  }

  // --- The archive as it should be --------------------------------------------------------------

  datatype File = File(name: bytes, content: bytes)

  datatype GapNote = GapNote(dropped: int, from: bytes, to: bytes)

  datatype ManifestSource = ManifestSource(
    component: bytes, instance: bytes, version: bytes, file: bytes,
    entries: nat, oldest: bytes, newest: bytes, gaps: seq<GapNote>)

  datatype Manifest = Manifest(
    generatedAt: bytes, since: bytes, until: bytes, excluded: seq<bytes>, sources: seq<ManifestSource>)

  function SourceOf(t: SourceTable, id: int): Source {
    if id in t then t[id] else Source([], [], [])
  }

  /** The file of a section: each of its entries' lines, once and in order. */
  function SectionFile(s: Section, t: SourceTable, clock: TimePrinter): File {
    var src := SourceOf(t, s.sourceId);
    File(FileName(src.component, src.instance), Content(s.rows, clock))
  }

  function SectionFiles(ss: seq<Section>, t: SourceTable, clock: TimePrinter): seq<File> {
    seq(|ss|, i requires 0 <= i < |ss| => SectionFile(ss[i], t, clock))
  }

  function GapNotes(gaps: seq<Gap>, id: int, clock: TimePrinter): seq<GapNote> {
    if gaps == [] then []
    else
      var g := gaps[|gaps| - 1];
      GapNotes(gaps[..|gaps| - 1], id, clock)
      + if g.sourceId == id then [GapNote(g.dropped, clock(g.fromMs), clock(g.toMs))] else []
  }

  /** What the manifest says of a source: how many of the rows are its own, and when the first and last of them were. */
  function Described(id: int, q: seq<Row>, gaps: seq<Gap>, t: SourceTable, clock: TimePrinter): ManifestSource {
    var src, rows := SourceOf(t, id), RowsOf(q, id);
    var notes := GapNotes(gaps, id, clock);
    if rows == [] then ManifestSource(src.component, src.instance, src.version, [], 0, [], [], notes)
    else
      ManifestSource(src.component, src.instance, src.version, FileName(src.component, src.instance), |rows|,
                     clock(rows[0].entry.timestampMs), clock(rows[|rows| - 1].entry.timestampMs), notes)
  }

  type ManifestMap = map<int, ManifestSource>

  function RowSources(q: seq<Row>): set<int> {
    if q == [] then {} else RowSources(q[..|q| - 1]) + {q[|q| - 1].entry.sourceId}
  }

  function GapSources(gaps: seq<Gap>): set<int> {
    if gaps == [] then {} else GapSources(gaps[..|gaps| - 1]) + {gaps[|gaps| - 1].sourceId}
  }

  /** Exactly the sources with rows or gaps are described, each by all of its rows and gaps. */
  ghost predicate Describes(m: ManifestMap, q: seq<Row>, gaps: seq<Gap>, t: SourceTable, clock: TimePrinter) {
    && m.Keys == RowSources(q) + GapSources(gaps)
    && forall id :: id in m ==> m[id] == Described(id, q, gaps, t, clock)
  }

  /** The gaps overlapping the filter's time range, of its components. */
  predicate GapMatches(f: Filter, g: Gap, t: SourceTable) {
    && g.sourceId in t
    && (f.sinceMs > 0 ==> g.toMs >= f.sinceMs)
    && (f.untilMs > 0 ==> g.fromMs <= f.untilMs)
    && (f.components != [] ==> t[g.sourceId].component in f.components)
  }

  function MatchingGaps(gaps: seq<Gap>, f: Filter, t: SourceTable): seq<Gap> {
    if gaps == [] then []
    else (if GapMatches(f, gaps[0], t) then [gaps[0]] else []) + MatchingGaps(gaps[1..], f, t)
  }

  predicate InGap(ms: int, g: Gap) {
    g.fromMs <= ms <= g.toMs
  }

  predicate InRange(ms: int, f: Filter) {
    (f.sinceMs > 0 ==> f.sinceMs <= ms) && (f.untilMs > 0 ==> ms <= f.untilMs)
  }

  /** Some instant lies in the gap and in the filter's range, absent limits restricting nothing; its source is allowed. */
  ghost predicate Overlaps(f: Filter, g: Gap, t: SourceTable) {
    && g.sourceId in t && (f.components == [] || t[g.sourceId].component in f.components)
    && exists ms: int :: InGap(ms, g) && InRange(ms, f)
  }

  /** A gap that is one, and a range that is one. */
  predicate Proportioned(f: Filter, g: Gap) {
    g.fromMs <= g.toMs && (f.sinceMs > 0 && f.untilMs > 0 ==> f.sinceMs <= f.untilMs)
  }

  lemma GapMatchesIff(f: Filter, g: Gap, t: SourceTable)
    requires Proportioned(f, g)
    ensures GapMatches(f, g, t) <==> Overlaps(f, g, t)
  {
    if GapMatches(f, g, t) {
      var ms := if f.sinceMs > 0 && g.fromMs < f.sinceMs then f.sinceMs else g.fromMs;
      assert InGap(ms, g) && InRange(ms, f);
    }
  }

  lemma {:induction false} MatchingFilters(gaps: seq<Gap>, f: Filter, t: SourceTable)
    ensures MatchingGaps(gaps, f, t) == Filtered(gaps, (g: Gap) => GapMatches(f, g, t))
  {
    if gaps != [] {
      MatchingFilters(gaps[1..], f, t);
    }
  }

  /** Each gap that matches is selected once, in the order of the table. */
  lemma MatchingPositions(gaps: seq<Gap>, f: Filter, t: SourceTable) returns (at: seq<nat>)
    ensures Picks(at, MatchingGaps(gaps, f, t), gaps)
    ensures IsExactly(at, |gaps|, (p: nat) => p < |gaps| && GapMatches(f, gaps[p], t))
  {
    MatchingFilters(gaps, f, t);
    at := FilteredPositions(gaps, (g: Gap) => GapMatches(f, g, t));
  }

  /** The notes of a source are those of its own gaps, in their order. */
  lemma {:induction false} NotePositions(gaps: seq<Gap>, id: int, clock: TimePrinter) returns (own: seq<Gap>, at: seq<nat>)
    ensures Picks(at, own, gaps) && IsExactly(at, |gaps|, (p: nat) => p < |gaps| && gaps[p].sourceId == id)
    ensures |GapNotes(gaps, id, clock)| == |own|
    ensures forall i :: 0 <= i < |own| ==>
      GapNotes(gaps, id, clock)[i] == GapNote(own[i].dropped, clock(own[i].fromMs), clock(own[i].toMs))
  {
    if gaps == [] {
      own, at := [], [];
    } else {
      var n := |gaps| - 1;
      own, at := NotePositions(gaps[..n], id, clock);
      PicksOneMore(at, own, gaps[..n], gaps[n]);
      assert gaps == gaps[..n] + [gaps[n]];
      ExactlyOneMore(at, n, (p: nat) => p < |gaps[..n]| && gaps[..n][p].sourceId == id,
                     (p: nat) => p < |gaps| && gaps[p].sourceId == id);
      if gaps[n].sourceId == id {
        own, at := own + [gaps[n]], at + [n];
      }
    }
  }

  /** own are, once each and in table order, the gaps of a source that overlap the filter's range. */
  ghost predicate AreOverlapping(at: seq<nat>, own: seq<Gap>, gaps: seq<Gap>, id: int, f: Filter, t: SourceTable) {
    && Picks(at, own, gaps)
    && forall p: nat :: p in at <==> p < |gaps| && gaps[p].sourceId == id && Overlaps(f, gaps[p], t)
  }

  lemma ComposedExactly(
    inMatching: seq<nat>, own: seq<Gap>, matching: seq<Gap>, inTable: seq<nat>, gaps: seq<Gap>, at: seq<nat>, id: int,
    f: Filter, t: SourceTable)
    requires Picks(inMatching, own, matching) && Picks(inTable, matching, gaps) && Picks(at, own, gaps)
    requires |at| == |inMatching| && forall i :: 0 <= i < |at| ==> at[i] == inTable[inMatching[i]]
    requires IsExactly(inTable, |gaps|, (p: nat) => p < |gaps| && GapMatches(f, gaps[p], t))
    requires IsExactly(inMatching, |matching|, (p: nat) => p < |matching| && matching[p].sourceId == id)
    requires forall g :: g in gaps ==> Proportioned(f, g)
    ensures forall p: nat :: p in at <==> p < |gaps| && gaps[p].sourceId == id && Overlaps(f, gaps[p], t)
  {
    forall p: nat ensures p in at <==> p < |gaps| && gaps[p].sourceId == id && Overlaps(f, gaps[p], t) {
      if p < |gaps| {
        GapMatchesIff(f, gaps[p], t);
      }
      if p in at {
        var i :| 0 <= i < |at| && at[i] == p;
        assert inMatching[i] in inMatching && p in inTable;
      }
      if p < |gaps| && gaps[p].sourceId == id && Overlaps(f, gaps[p], t) {
        assert p in inTable;
        var j: nat :| j < |inTable| && inTable[j] == p;
        assert matching[j] == gaps[p] && j in inMatching;
        var i :| 0 <= i < |inMatching| && inMatching[i] == j;
        assert at[i] == p;
      }
    }
  }

  /**
   * What the manifest notes of a source: each gap of the table that is its own and overlaps the range, once and in table
   * order, with its own count, start and end.
   */
  lemma ManifestNotesOverlaps(
    m: ManifestMap, q: seq<Row>, gaps: seq<Gap>, f: Filter, t: SourceTable, clock: TimePrinter, id: int)
    returns (own: seq<Gap>, at: seq<nat>)
    requires Describes(m, q, MatchingGaps(gaps, f, t), t, clock) && id in m
    requires forall g :: g in gaps ==> Proportioned(f, g)
    ensures AreOverlapping(at, own, gaps, id, f, t)
    ensures |m[id].gaps| == |own|
    ensures forall i :: 0 <= i < |own| ==>
      m[id].gaps[i] == GapNote(own[i].dropped, clock(own[i].fromMs), clock(own[i].toMs))
  {
    var matching := MatchingGaps(gaps, f, t);
    var inTable := MatchingPositions(gaps, f, t);
    var inMatching;
    own, inMatching := NotePositions(matching, id, clock);
    at := ComposePicks(inMatching, own, matching, inTable, gaps);
    ComposedExactly(inMatching, own, matching, inTable, gaps, at, id, f, t);
    assert m[id] == Described(id, q, matching, t, clock);
  }

  // --- The order of the manifest ------------------------------------------------------------

  /** Go's < on strings. */
  predicate Less(a: bytes, b: bytes) {
    b != [] && (a == [] || a[0] < b[0] || (a[0] == b[0] && Less(a[1..], b[1..])))
  }

  /** a and b agree up to k, and there a ends or has the smaller byte. */
  predicate SmallerAt(a: bytes, b: bytes, k: nat) {
    k <= |a| && k < |b| && a[..k] == b[..k] && (k == |a| || a[k] < b[k])
  }

  lemma {:induction false} LessIff(a: bytes, b: bytes)
    ensures Less(a, b) <==> exists k: nat :: SmallerAt(a, b, k)
  {
    if a != [] && b != [] {
      LessIff(a[1..], b[1..]);
      if a[0] == b[0] && Less(a[1..], b[1..]) {
        var k: nat :| SmallerAt(a[1..], b[1..], k);
        assert a[..k + 1] == [a[0]] + a[1..][..k] && b[..k + 1] == [b[0]] + b[1..][..k];
        assert SmallerAt(a, b, k + 1);
      }
      if k: nat :| SmallerAt(a, b, k) {
        if k > 0 {
          assert a[0] == a[..k][0] == b[..k][0] == b[0];
          assert a[1..][..k - 1] == a[..k][1..] && b[1..][..k - 1] == b[..k][1..];
          assert SmallerAt(a[1..], b[1..], k - 1);
        }
      }
      assert a[0] < b[0] ==> SmallerAt(a, b, 0);
    } else if b != [] {
      assert SmallerAt(a, b, 0);
    }
  }

  predicate Precedes(a: ManifestSource, b: ManifestSource) {
    if a.component != b.component then Less(a.component, b.component) else Less(a.instance, b.instance)
  }

  lemma {:induction false} LessTotal(a: bytes, b: bytes)
    ensures Less(a, b) || Less(b, a) || a == b
    ensures !(Less(a, b) && Less(b, a)) && (a == b ==> !Less(a, b))
  {
    if a != [] && b != [] {
      LessTotal(a[1..], b[1..]);
      assert a == [a[0]] + a[1..] && b == [b[0]] + b[1..];
    }
  }

  lemma {:induction false} LessTransitive(a: bytes, b: bytes, c: bytes)
    requires Less(a, b) && Less(b, c)
    ensures Less(a, c)
  {
    if a != [] && a[0] == b[0] == c[0] {
      LessTransitive(a[1..], b[1..], c[1..]);
    }
  }

  /** sort.Slice leaves no pair in the wrong order. */
  ghost predicate InOrder(ms: seq<ManifestSource>) {
    forall i, j :: 0 <= i < j < |ms| ==> !Precedes(ms[j], ms[i])
  }

  lemma NotPrecedesTransitive(a: ManifestSource, b: ManifestSource, c: ManifestSource)
    requires !Precedes(b, a) && !Precedes(c, b)
    ensures !Precedes(c, a)
  {
    LessTotal(a.component, b.component);
    LessTotal(b.component, c.component);
    LessTotal(a.component, c.component);
    LessTotal(a.instance, b.instance);
    LessTotal(b.instance, c.instance);
    LessTotal(a.instance, c.instance);
    if Precedes(c, a) {
      if Less(c.component, a.component) && Less(a.component, b.component) {
        LessTransitive(c.component, a.component, b.component);
      }
      if Less(b.component, c.component) && Less(c.component, a.component) {
        LessTransitive(b.component, c.component, a.component);
      }
      if Less(c.instance, a.instance) && Less(a.instance, b.instance) {
        LessTransitive(c.instance, a.instance, b.instance);
      }
    }
  }

  function InsertInOrder(m: ManifestSource, ms: seq<ManifestSource>): seq<ManifestSource> {
    if ms == [] || !Precedes(ms[0], m) then [m] + ms else [ms[0]] + InsertInOrder(m, ms[1..])
  }

  lemma PrecedesAsymmetric(a: ManifestSource, b: ManifestSource)
    requires Precedes(a, b)
    ensures !Precedes(b, a)
  {
    LessTotal(a.component, b.component);
    LessTotal(a.instance, b.instance);
  }

  lemma {:induction false} InsertedInOrder(m: ManifestSource, ms: seq<ManifestSource>)
    requires InOrder(ms)
    ensures InOrder(InsertInOrder(m, ms))
    ensures multiset(InsertInOrder(m, ms)) == multiset(ms) + multiset{m}
  {
    if ms == [] {
    } else if !Precedes(ms[0], m) {
      forall k | 0 <= k < |ms| ensures !Precedes(ms[k], m) {
        if k > 0 {
          NotPrecedesTransitive(m, ms[0], ms[k]);
        }
      }
    } else {
      InsertedInOrder(m, ms[1..]);
      var tail := InsertInOrder(m, ms[1..]);
      assert ms == [ms[0]] + ms[1..];
      forall x | x in tail ensures !Precedes(x, ms[0]) {
        assert x in multiset(tail);
        if x == m {
          PrecedesAsymmetric(ms[0], m);
        } else {
          assert x in ms[1..];
        }
      }
    }
  }

  function ValuesOf(ids: seq<int>, m: ManifestMap): seq<ManifestSource> {
    seq(|ids|, i requires 0 <= i < |ids| => if ids[i] in m then m[ids[i]] else ManifestSource([], [], [], [], 0, [], [], []))
  }

  /** ids enumerates the keys of m, each once. */
  ghost predicate Enumerates(ids: seq<int>, keys: set<int>) {
    && (forall id :: id in ids <==> id in keys)
    && forall i, j :: 0 <= i < j < |ids| ==> ids[i] != ids[j]
  }

  /** buildManifest's list: every described source once, ordered by component and instance. */
  method ListSources(m: ManifestMap) returns (ms: seq<ManifestSource>, ghost ids: seq<int>)
    ensures Enumerates(ids, m.Keys) && multiset(ms) == multiset(ValuesOf(ids, m)) && InOrder(ms)
  {
    ms, ids := [], [];
    var left := m.Keys;
    while true
      invariant left <= m.Keys && Enumerates(ids, m.Keys - left)
      invariant multiset(ms) == multiset(ValuesOf(ids, m)) && InOrder(ms)
      decreases left
    {
      if id :| id in left {
        InsertedInOrder(m[id], ms);
        ms := InsertInOrder(m[id], ms);
        assert ValuesOf(ids + [id], m) == ValuesOf(ids, m) + [m[id]];
        ids := ids + [id];
        left := left - {id};
      } else {
        return;
      }
    }
  }

  /** The moment of the export, the filter's range and what it excludes. */
  predicate HasHead(m: Manifest, f: Filter, nowMs: int, clock: TimePrinter, stamp: TimePrinter) {
    && m.generatedAt == stamp(nowMs)
    && m.until == clock(f.untilMs) && m.since == (if f.sinceMs > 0 then clock(f.sinceMs) else [])
    && |m.excluded| == |f.excludeCategories|
    && forall i :: 0 <= i < |m.excluded| ==> m.excluded[i] == CategoryName(f.excludeCategories[i])
  }

  method BuildManifest(m: ManifestMap, f: Filter, nowMs: int, clock: TimePrinter, stamp: TimePrinter)
    returns (manifest: Manifest, ghost ids: seq<int>)
    ensures Enumerates(ids, m.Keys) && multiset(manifest.sources) == multiset(ValuesOf(ids, m)) && InOrder(manifest.sources)
    ensures HasHead(manifest, f, nowMs, clock, stamp)
  {
    var excluded: seq<bytes> := [];
    for i := 0 to |f.excludeCategories|
      invariant |excluded| == i
      invariant forall k :: 0 <= k < i ==> excluded[k] == CategoryName(f.excludeCategories[k])
    {
      excluded := excluded + [CategoryName(f.excludeCategories[i])];
    }
    var sources;
    sources, ids := ListSources(m);
    manifest := Manifest(stamp(nowMs), if f.sinceMs > 0 then clock(f.sinceMs) else [], clock(f.untilMs), excluded, sources);
  }

  // --- Staging ------------------------------------------------------------------------------

  /** The directory the per-source files are staged in. */
  class TempDir {
    var files: map<int, bytes>

    constructor ()
      ensures files == map[]
    {
      files := map[];
    }

    /** os.CreateTemp */
    method Create(fails: bool) returns (token: Result<int>)
      modifies this
      ensures token.Err? ==> files == old(files)
      ensures token.Ok? ==> token.value !in old(files) && files == old(files)[token.value := []]
      ensures token.Ok? <==> !fails
    {
      if fails {
        return Err;
      }
      var id := FreshId(files.Keys);
      files := files[id := []];
      token := Ok(id);
    }

    /** A write to a staged file. */
    method Write(token: int, data: bytes, fails: bool) returns (ok: bool)
      requires token in files
      modifies this
      ensures ok == !fails && files == if ok then old(files)[token := old(files)[token] + data] else old(files)
    {
      if !fails {
        files := files[token := files[token] + data];
      }
      ok := !fails;
    }

    /** discard: closes and removes the file. */
    method Discard(token: int)
      modifies this
      ensures files == old(files) - {token}
    {
      files := files - {token};
    }
  }

  /** stagedFile: one source's lines until their size is known. */
  datatype Staged = Staged(sourceId: int, name: bytes, token: int)

  /** addTo: the staged file goes into the archive and, whatever happens, out of the directory. */
  method AddTo(s: Staged, dir: TempDir, archive: seq<File>, fails: bool) returns (archive': seq<File>, ok: bool)
    requires s.token in dir.files
    modifies dir
    ensures dir.files == old(dir.files) - {s.token}
    ensures ok == !fails && archive' == if ok then archive + [File(s.name, old(dir.files)[s.token])] else archive
  {
    archive', ok := archive, !fails;
    if ok {
      archive' := archive + [File(s.name, dir.files[s.token])];
    }
    dir.Discard(s.token);
  }

  // --- Build --------------------------------------------------------------------------------

  /** f with the missing end of the range set. */
  function Until(f: Filter, nowMs: int): Filter {
    if f.untilMs == 0 then f.(untilMs := nowMs) else f
  }

  /** What one more row does to the description of every source. */
  lemma DescribedStep(id: int, q: seq<Row>, r: Row, t: SourceTable, clock: TimePrinter)
    ensures var src, d := SourceOf(t, id), Described(id, q, [], t, clock);
      Described(id, q + [r], [], t, clock)
      == if r.entry.sourceId != id then d
         else d.(file := FileName(src.component, src.instance), entries := d.entries + 1,
                 oldest := if d.entries == 0 then clock(r.entry.timestampMs) else d.oldest,
                 newest := clock(r.entry.timestampMs))
  {
    RowsOfAppend(q, [r], id);
    RowsOfUniform([r], r.entry.sourceId, id);
  }

  /** The name of a source's file. */
  function NameOf(t: SourceTable, id: int): bytes {
    FileName(SourceOf(t, id).component, SourceOf(t, id).instance)
  }

  ghost predicate StagingOf(
    ss: seq<Section>, t: SourceTable, clock: TimePrinter, before: map<int, bytes>,
    c: Staged, files: map<int, bytes>, archive: seq<File>)
  {
    && ss != [] && ss[|ss| - 1].sourceId == c.sourceId
    && c.token !in before && files == before[c.token := Content(ss[|ss| - 1].rows, clock)]
    && archive == SectionFiles(ss[..|ss| - 1], t, clock)
    && c.name == NameOf(t, c.sourceId)
  }

  /** What is staged and archived after some rows: all sections but the last are in the archive, the last in a file. */
  ghost predicate Staging(
    q: seq<Row>, t: SourceTable, clock: TimePrinter, before: map<int, bytes>,
    current: Option<Staged>, files: map<int, bytes>, archive: seq<File>)
  {
    match current
    case None => q == [] && files == before && archive == []
    case Some(c) => q != [] && StagingOf(Group(q), t, clock, before, c, files, archive)
  }

  /** What the deferred function of Build can still clean up. */
  ghost predicate Cleanable(current: Option<Staged>, files: map<int, bytes>, before: map<int, bytes>) {
    match current
    case None => files == before
    case Some(c) => c.token in files && c.token !in before && files - {c.token} == before
  }

  lemma GroupStep(q: seq<Row>, r: Row)
    ensures var ss, id := Group(q), r.entry.sourceId;
      Group(q + [r])
      == if ss != [] && ss[|ss| - 1].sourceId == id then ss[..|ss| - 1] + [Section(id, ss[|ss| - 1].rows + [r])]
         else ss + [Section(id, [r])]
  {
    assert (q + [r])[..|q|] == q;
  }

  lemma ContentStep(rows: seq<Row>, r: Row, clock: TimePrinter)
    ensures Content(rows + [r], clock) == Content(rows, clock) + FormatLine(r.entry, clock)
  {
    assert (rows + [r])[..|rows|] == rows;
  }

  lemma DescribesStep(m: ManifestMap, q: seq<Row>, r: Row, t: SourceTable, clock: TimePrinter)
    requires Describes(m, q, [], t, clock)
    ensures Describes(m[r.entry.sourceId := Described(r.entry.sourceId, q + [r], [], t, clock)], q + [r], [], t, clock)
  {
    var id := r.entry.sourceId;
    var m' := m[id := Described(id, q + [r], [], t, clock)];
    assert (q + [r])[..|q|] == q;
    assert m'.Keys == m.Keys + {id};
    forall k | k in m' ensures m'[k] == Described(k, q + [r], [], t, clock) {
      if k != id {
        assert m'[k] == m[k] == Described(k, q, [], t, clock);
        DescribedStep(k, q, r, t, clock);
      }
    }
  }

  /** The rows of a source that is none of the rows' sources. */
  lemma {:induction false} NoRowsOf(q: seq<Row>, id: int)
    requires id !in RowSources(q)
    ensures RowsOf(q, id) == []
    decreases |q|
  {
    if q != [] {
      NoRowsOf(q[..|q| - 1], id);
      RowsOfAppend(q[..|q| - 1], [q[|q| - 1]], id);
      RowsOfUniform([q[|q| - 1]], q[|q| - 1].entry.sourceId, id);
      assert q[..|q| - 1] + [q[|q| - 1]] == q;
    }
  }

  /** In an ordered stream all sources come before one that is not the last row's. */
  lemma {:induction false} LaterSourceIsNew(q: seq<Row>, id: int)
    requires BySource(q) && (q != [] ==> q[|q| - 1].entry.sourceId < id)
    ensures id !in RowSources(q)
  {
    if q != [] {
      var init := q[..|q| - 1];
      assert init != [] ==> init[|init| - 1] == q[|q| - 2];
      LaterSourceIsNew(init, id);
    }
  }

  lemma PrefixBySource(q: seq<Row>, r: Row)
    requires BySource(q + [r])
    ensures BySource(q) && (q != [] ==> q[|q| - 1].entry.sourceId <= r.entry.sourceId)
  {
    var all := q + [r];
    assert forall i :: 0 <= i < |q| ==> all[i] == q[i];
    assert q != [] ==> all[|q| - 1].entry.sourceId <= all[|q|].entry.sourceId;
  }

  /** In an ordered stream a source that starts a section has not occurred before. */
  lemma NewSectionIsNew(q: seq<Row>, r: Row, m: ManifestMap, t: SourceTable, clock: TimePrinter)
    requires BySource(q + [r]) && Describes(m, q, [], t, clock)
    requires q != [] ==> Group(q) != [] && Group(q)[|Group(q)| - 1].sourceId != r.entry.sourceId
    ensures r.entry.sourceId !in m && RowsOf(q, r.entry.sourceId) == []
  {
    GroupFlattens(q);
    PrefixBySource(q, r);
    LaterSourceIsNew(q, r.entry.sourceId);
    NoRowsOf(q, r.entry.sourceId);
  }

  /** The source of the section being staged is in the manifest, with its file name and an entry. */
  lemma OpenSectionIsDescribed(q: seq<Row>, m: ManifestMap, t: SourceTable, clock: TimePrinter)
    requires q != [] && Describes(m, q, [], t, clock)
    ensures Group(q) != []
    ensures var id := Group(q)[|Group(q)| - 1].sourceId;
      id in m && m[id].entries > 0 && m[id].file == NameOf(t, id)
  {
    GroupFlattens(q);
    var r := q[|q| - 1];
    var id := r.entry.sourceId;
    assert RowsOf(q, id) != [] by {
      RowsOfAppend(q[..|q| - 1], [r], id);
      RowsOfUniform([r], id, id);
      assert q[..|q| - 1] + [r] == q;
    }
    assert id in m && m[id] == Described(id, q, [], t, clock);
  }

  /** The entry of a source the manifest did not have. */
  function Undescribed(src: Source): ManifestSource {
    ManifestSource(src.component, src.instance, src.version, [], 0, [], [], [])
  }

  /** A source's entry with one more line. */
  function Counted(m: ManifestSource, r: Row, clock: TimePrinter): ManifestSource {
    m.(entries := m.entries + 1, newest := clock(r.entry.timestampMs))
  }

  /** A row of the section being staged. */
  lemma ManifestSame(q: seq<Row>, r: Row, t: SourceTable, clock: TimePrinter, m: ManifestMap)
    requires q != [] && Describes(m, q, [], t, clock)
    requires Group(q) != [] && Group(q)[|Group(q)| - 1].sourceId == r.entry.sourceId
    ensures r.entry.sourceId in m
    ensures Describes(m[r.entry.sourceId := Counted(m[r.entry.sourceId], r, clock)], q + [r], [], t, clock)
  {
    var id := r.entry.sourceId;
    OpenSectionIsDescribed(q, m, t, clock);
    DescribedStep(id, q, r, t, clock);
    assert Counted(m[id], r, clock) == Described(id, q + [r], [], t, clock);
    DescribesStep(m, q, r, t, clock);
  }

  /** A row that starts a section. */
  lemma ManifestNew(q: seq<Row>, r: Row, t: SourceTable, clock: TimePrinter, m: ManifestMap, first: ManifestSource)
    requires Describes(m, q, [], t, clock) && RowsOf(q, r.entry.sourceId) == []
    requires first == Undescribed(SourceOf(t, r.entry.sourceId)).(
                         file := NameOf(t, r.entry.sourceId), oldest := clock(r.entry.timestampMs))
    ensures Describes(m[r.entry.sourceId := Counted(first, r, clock)], q + [r], [], t, clock)
  {
    var id := r.entry.sourceId;
    DescribedStep(id, q, r, t, clock);
    assert Counted(first, r, clock) == Described(id, q + [r], [], t, clock);
    DescribesStep(m, q, r, t, clock);
  }

  /** One more line in the staged file is one more row in the last section. */
  lemma StagingExtended(
    ss: seq<Section>, rows: seq<Row>, line: bytes, t: SourceTable, clock: TimePrinter, before: map<int, bytes>, c: Staged,
    files: map<int, bytes>, archive: seq<File>)
    requires StagingOf(ss, t, clock, before, c, files, archive)
    requires Content(rows, clock) == Content(ss[|ss| - 1].rows, clock) + line
    ensures c.token in files
    ensures StagingOf(ss[..|ss| - 1] + [Section(c.sourceId, rows)], t, clock, before, c,
                      files[c.token := files[c.token] + line], archive)
  {
    var gs, content := ss[..|ss| - 1] + [Section(c.sourceId, rows)], Content(ss[|ss| - 1].rows, clock);
    assert gs[..|gs| - 1] == ss[..|ss| - 1] && gs[|gs| - 1] == Section(c.sourceId, rows);
    assert files[c.token] == content;
    assert files[c.token := content + line] == before[c.token := content + line];
  }

  lemma StagingSame(
    q: seq<Row>, r: Row, t: SourceTable, clock: TimePrinter, before: map<int, bytes>, c: Staged, files: map<int, bytes>,
    archive: seq<File>)
    requires Staging(q, t, clock, before, Some(c), files, archive) && c.sourceId == r.entry.sourceId
    ensures c.token in files
    ensures Staging(q + [r], t, clock, before, Some(c), files[c.token := files[c.token] + FormatLine(r.entry, clock)], archive)
  {
    var ss := Group(q);
    var rows, line := ss[|ss| - 1].rows + [r], FormatLine(r.entry, clock);
    assert Content(rows, clock) == Content(ss[|ss| - 1].rows, clock) + line by {
      ContentStep(ss[|ss| - 1].rows, r, clock);
    }
    assert Group(q + [r]) == ss[..|ss| - 1] + [Section(c.sourceId, rows)] by { GroupStep(q, r); }
    StagingExtended(ss, rows, line, t, clock, before, c, files, archive);
  }

  lemma OneLine(r: Row, clock: TimePrinter)
    ensures Content([r], clock) == FormatLine(r.entry, clock)
  {
    assert [r][..0] == [];
    assert Content([], clock) == [];
  }

  lemma StagingNew(
    q: seq<Row>, r: Row, t: SourceTable, clock: TimePrinter, before: map<int, bytes>, c: Staged, archive: seq<File>)
    requires archive == SectionFiles(Group(q), t, clock)
    requires Group(q) != [] ==> Group(q)[|Group(q)| - 1].sourceId != r.entry.sourceId
    requires c.sourceId == r.entry.sourceId && c.token !in before && c.name == NameOf(t, c.sourceId)
    ensures Staging(q + [r], t, clock, before, Some(c), before[c.token := FormatLine(r.entry, clock)], archive)
  {
    var ss, gs := Group(q), Group(q + [r]);
    GroupStep(q, r);
    OneLine(r, clock);
    assert gs == ss + [Section(r.entry.sourceId, [r])] && gs[..|gs| - 1] == ss;
  }

  /** Finishing the open section completes the files of the sections so far. */
  lemma FinishedFiles(ss: seq<Section>, t: SourceTable, clock: TimePrinter)
    requires ss != []
    ensures SectionFiles(ss[..|ss| - 1], t, clock) + [SectionFile(ss[|ss| - 1], t, clock)] == SectionFiles(ss, t, clock)
  {
  }

  /** finish: what is staged, if anything, goes into the archive. */
  method Finish(
    current: Option<Staged>, dir: TempDir, archive: seq<File>, fails: bool,
    ghost q: seq<Row>, ghost t: SourceTable, ghost clock: TimePrinter, ghost before: map<int, bytes>)
    returns (archive': seq<File>, ok: bool)
    requires Staging(q, t, clock, before, current, dir.files, archive)
    modifies dir
    ensures dir.files == before
    ensures ok ==> archive' == SectionFiles(Group(q), t, clock)
    ensures ok <==> q == [] || !fails
  {
    archive', ok := archive, true;
    if current.Some? {
      FinishedFiles(Group(q), t, clock);
      archive', ok := AddTo(current.value, dir, archive, fails);
    }
  }

  /** Which of the operations of one callback fail. */
  datatype RowFaults = RowFaults(add: bool, create: bool, write: bool)

  /** The part of the callback that starts a section: finish the one before, then stage a new file. */
  method StartSection(
    r: Row, t: SourceTable, clock: TimePrinter, dir: TempDir, current: Option<Staged>, archive: seq<File>,
    fails: RowFaults, ghost q: seq<Row>, ghost before: map<int, bytes>)
    returns (current': Option<Staged>, archive': seq<File>, ok: bool)
    requires Staging(q, t, clock, before, current, dir.files, archive)
    modifies dir
    ensures !ok ==> current'.None? && dir.files == before
    ensures ok ==> archive' == SectionFiles(Group(q), t, clock) && current'.Some?
    ensures ok ==> dir.files == before[current'.value.token := []] && current'.value.token !in before
    ensures ok ==> current'.value.sourceId == r.entry.sourceId && current'.value.name == NameOf(t, r.entry.sourceId)
    ensures ok <==> !fails.create && (q == [] || !fails.add)
  {
    current' := None;
    archive', ok := Finish(current, dir, archive, fails.add, q, t, clock, before);
    if !ok {
      return;
    }
    var src := SourceOf(t, r.entry.sourceId);
    var name := FileName(src.component, src.instance);
    var token := dir.Create(fails.create);
    if token.Err? {
      ok := false;
      return;
    }
    current' := Some(Staged(r.entry.sourceId, name, token.value));
  }

  lemma FirstWrite(
    before: map<int, bytes>, token: int, line: bytes, start: map<int, bytes>, files: map<int, bytes>, written: bool)
    requires token !in before && start == before[token := []]
    requires files == if written then start[token := start[token] + line] else start
    ensures token in files && files - {token} == before
    ensures written ==> files == before[token := line]
  {
    assert start[token] + line == line;
  }

  /** The staged line of a section's first row. */
  method StageFirst(
    r: Row, t: SourceTable, clock: TimePrinter, dir: TempDir, current: Option<Staged>, archive: seq<File>,
    fails: RowFaults, ghost q: seq<Row>, ghost before: map<int, bytes>)
    returns (current': Option<Staged>, archive': seq<File>, ok: bool)
    requires Staging(q, t, clock, before, current, dir.files, archive)
    requires current.Some? ==> current.value.sourceId != r.entry.sourceId
    modifies dir
    ensures !ok ==> Cleanable(current', dir.files, before)
    ensures ok ==> Staging(q + [r], t, clock, before, current', dir.files, archive')
    ensures ok ==> current'.Some? && current'.value.name == NameOf(t, r.entry.sourceId)
    ensures ok <==> !fails.write && !fails.create && (q == [] || !fails.add)
  {
    current', archive', ok := StartSection(r, t, clock, dir, current, archive, fails, q, before);
    if ok {
      ghost var start := dir.files;
      var line := FormatLine(r.entry, clock);
      StagingNew(q, r, t, clock, before, current'.value, archive');
      ok := dir.Write(current'.value.token, line, fails.write);
      FirstWrite(before, current'.value.token, line, start, dir.files, ok);
    }
  }

  lemma StagingIsCleanable(
    q: seq<Row>, t: SourceTable, clock: TimePrinter, before: map<int, bytes>, current: Option<Staged>, files: map<int, bytes>,
    archive: seq<File>)
    requires Staging(q, t, clock, before, current, files, archive)
    ensures Cleanable(current, files, before)
  {
  }

  /** The staged line of any other row of a section. */
  method StageNext(
    r: Row, clock: TimePrinter, dir: TempDir, c: Staged, fails: bool, ghost archive: seq<File>,
    ghost q: seq<Row>, ghost t: SourceTable, ghost before: map<int, bytes>)
    returns (ok: bool)
    requires Staging(q, t, clock, before, Some(c), dir.files, archive) && c.sourceId == r.entry.sourceId
    modifies dir
    ensures !ok ==> Cleanable(Some(c), dir.files, before)
    ensures ok ==> Staging(q + [r], t, clock, before, Some(c), dir.files, archive)
    ensures ok == !fails
  {
    StagingIsCleanable(q, t, clock, before, Some(c), dir.files, archive);
    var line := FormatLine(r.entry, clock);
    StagingSame(q, r, t, clock, before, c, dir.files, archive);
    ok := dir.Write(c.token, line, fails);
  }

  /** None of the operations a row behind q needs fails: its write and, if it starts a section, the file changes. */
  predicate RowWorks(q: seq<Row>, r: Row, fails: RowFaults) {
    && !fails.write
    && (q == [] || q[|q| - 1].entry.sourceId != r.entry.sourceId ==> !fails.create && (q == [] || !fails.add))
  }

  lemma StagedIsLast(
    q: seq<Row>, t: SourceTable, clock: TimePrinter, before: map<int, bytes>, current: Option<Staged>, files: map<int, bytes>,
    archive: seq<File>)
    requires Staging(q, t, clock, before, current, files, archive)
    ensures current.Some? ==> q != [] && current.value.sourceId == q[|q| - 1].entry.sourceId
  {
    GroupFlattens(q);
  }

  /** The manifest's entry of a section's first row. */
  method OpenInManifest(
    r: Row, t: SourceTable, clock: TimePrinter, manifest: ManifestMap, name: bytes, ghost q: seq<Row>)
    returns (manifest': ManifestMap)
    requires Describes(manifest, q, [], t, clock) && BySource(q + [r]) && name == NameOf(t, r.entry.sourceId)
    requires q != [] ==> Group(q) != [] && Group(q)[|Group(q)| - 1].sourceId != r.entry.sourceId
    ensures Describes(manifest', q + [r], [], t, clock)
  {
    var id := r.entry.sourceId;
    var m := if id in manifest then manifest[id] else Undescribed(SourceOf(t, id));
    NewSectionIsNew(q, r, manifest, t, clock);
    m := m.(file := name, oldest := clock(r.entry.timestampMs));
    ManifestNew(q, r, t, clock, manifest, m);
    manifest' := manifest[id := Counted(m, r, clock)];
  }

  /** The callback of Build; it succeeds exactly if nothing it needs fails. */
  method StageRow(
    r: Row, t: SourceTable, clock: TimePrinter, dir: TempDir, current: Option<Staged>, archive: seq<File>,
    manifest: ManifestMap, fails: RowFaults, ghost q: seq<Row>, ghost before: map<int, bytes>)
    returns (current': Option<Staged>, archive': seq<File>, manifest': ManifestMap, ok: bool)
    requires Staging(q, t, clock, before, current, dir.files, archive)
    requires Describes(manifest, q, [], t, clock) && BySource(q + [r])
    modifies dir
    ensures !ok ==> Cleanable(current', dir.files, before)
    ensures ok ==> Staging(q + [r], t, clock, before, current', dir.files, archive')
    ensures ok ==> Describes(manifest', q + [r], [], t, clock)
    ensures ok <==> RowWorks(q, r, fails)
  {
    StagedIsLast(q, t, clock, before, current, dir.files, archive);
    current', archive', manifest' := current, archive, manifest;
    var id := r.entry.sourceId;
    if current.None? || current.value.sourceId != id {
      current', archive', ok := StageFirst(r, t, clock, dir, current, archive, fails, q, before);
      if ok {
        manifest' := OpenInManifest(r, t, clock, manifest, current'.value.name, q);
      }
    } else {
      ok := StageNext(r, clock, dir, current.value, fails.write, archive, q, t, before);
      ManifestSame(q, r, t, clock, manifest);
      manifest' := manifest[id := Counted(manifest[id], r, clock)];
    }
  }

  lemma {:induction false} NoNotes(gaps: seq<Gap>, id: int, clock: TimePrinter)
    requires id !in GapSources(gaps)
    ensures GapNotes(gaps, id, clock) == []
  {
    if gaps != [] {
      NoNotes(gaps[..|gaps| - 1], id, clock);
    }
  }

  /** A source without rows and gaps is described by its names alone. */
  lemma DescribedNothing(id: int, q: seq<Row>, gaps: seq<Gap>, t: SourceTable, clock: TimePrinter)
    requires id !in RowSources(q) + GapSources(gaps)
    ensures Described(id, q, gaps, t, clock) == Undescribed(SourceOf(t, id))
  {
    NoNotes(gaps, id, clock);
    NoRowsOf(q, id);
  }

  /** One more gap. */
  method AddGap(
    m: ManifestMap, g: Gap, t: SourceTable, clock: TimePrinter, ghost q: seq<Row>, ghost gaps: seq<Gap>)
    returns (m': ManifestMap)
    requires Describes(m, q, gaps, t, clock)
    ensures Describes(m', q, gaps + [g], t, clock)
  {
    var id := g.sourceId;
    var d := if id in m then m[id] else Undescribed(SourceOf(t, id));
    assert d == Described(id, q, gaps, t, clock) by {
      if id !in m {
        DescribedNothing(id, q, gaps, t, clock);
      }
    }
    m' := m[id := d.(gaps := d.gaps + [GapNote(g.dropped, clock(g.fromMs), clock(g.toMs))])];
    assert (gaps + [g])[..|gaps|] == gaps;
    assert m'.Keys == m.Keys + {id};
    forall k | k in m' ensures m'[k] == Described(k, q, gaps + [g], t, clock) {
      assert k != id ==> GapNotes(gaps + [g], k, clock) == GapNotes(gaps, k, clock);
    }
  }

  /** The loop of Build over the gaps. */
  method AddGaps(m: ManifestMap, gaps: seq<Gap>, t: SourceTable, clock: TimePrinter, ghost q: seq<Row>)
    returns (m': ManifestMap)
    requires Describes(m, q, [], t, clock)
    ensures Describes(m', q, gaps, t, clock)
  {
    m' := m;
    var j := 0;
    assert gaps[..0] == [];
    while j < |gaps|
      invariant 0 <= j <= |gaps| && Describes(m', q, gaps[..j], t, clock)
    {
      assert gaps[..j] + [gaps[j]] == gaps[..j + 1];
      m' := AddGap(m', gaps[j], t, clock, q, gaps[..j]);
      j := j + 1;
    }
    assert gaps[..|gaps|] == gaps;
  }

  /** Which operations of Build fail; the streams of rows, with its end behind the last, and callbacks by position. */
  datatype BuildFaults = BuildFaults(
    sources: bool, stream: nat -> bool, row: nat -> RowFaults, finish: bool, gaps: bool, write: bool, close: bool)

  predicate RowsWork(q: seq<Row>, n: nat, faults: BuildFaults)
    requires n <= |q|
  {
    n == 0
    || (RowsWork(q, n - 1, faults) && !faults.stream(n - 1) && RowWorks(q[..n - 1], q[n - 1], faults.row(n - 1)))
  }

  /** Nothing that staging the rows needs fails. */
  predicate StagingWorks(q: seq<Row>, faults: BuildFaults) {
    && RowsWork(q, |q|, faults) && !faults.stream(|q|) && (q == [] || !faults.finish)
  }

  /** One row more. */
  lemma RowsWorkStep(q: seq<Row>, i: nat, done: seq<Row>, faults: BuildFaults)
    requires BySource(q) && i < |q| && done == q[..i]
    ensures done + [q[i]] == q[..i + 1] && BySource(done + [q[i]])
    ensures RowsWork(q, i + 1, faults)
       <==> RowsWork(q, i, faults) && !faults.stream(i) && RowWorks(done, q[i], faults.row(i))
  {
    assert forall k :: 0 <= k <= i ==> (done + [q[i]])[k] == q[k];
  }

  lemma {:induction false} RowsWorkShorter(q: seq<Row>, i: nat, faults: BuildFaults)
    requires i <= |q|
    ensures RowsWork(q, |q|, faults) ==> RowsWork(q, i, faults)
    decreases |q| - i
  {
    if i < |q| {
      RowsWorkShorter(q, i + 1, faults);
    }
  }

  /** What is staged, archived and described after the first i rows, none of which failed. */
  ghost predicate Progress(
    q: seq<Row>, i: nat, t: SourceTable, clock: TimePrinter, faults: BuildFaults, before: map<int, bytes>,
    current: Option<Staged>, files: map<int, bytes>, archive: seq<File>, manifest: ManifestMap)
    requires i <= |q|
  {
    && Staging(q[..i], t, clock, before, current, files, archive)
    && Describes(manifest, q[..i], [], t, clock)
    && RowsWork(q, i, faults)
  }

  lemma NoProgress(q: seq<Row>, t: SourceTable, clock: TimePrinter, faults: BuildFaults, before: map<int, bytes>)
    ensures Progress(q, 0, t, clock, faults, before, None, before, [], map[])
  {
    assert q[..0] == [];
  }

  lemma FullProgress(
    q: seq<Row>, t: SourceTable, clock: TimePrinter, faults: BuildFaults, before: map<int, bytes>,
    current: Option<Staged>, files: map<int, bytes>, archive: seq<File>, manifest: ManifestMap)
    requires Progress(q, |q|, t, clock, faults, before, current, files, archive, manifest)
    ensures Staging(q, t, clock, before, current, files, archive) && Describes(manifest, q, [], t, clock)
    ensures RowsWork(q, |q|, faults) && Cleanable(current, files, before)
  {
    assert q[..|q|] == q;
    StagingIsCleanable(q, t, clock, before, current, files, archive);
  }

  /** The iteration of EachEntry over the i-th row. */
  method StageAt(
    q: seq<Row>, i: nat, t: SourceTable, clock: TimePrinter, dir: TempDir, faults: BuildFaults,
    current: Option<Staged>, archive: seq<File>, manifest: ManifestMap, ghost before: map<int, bytes>)
    returns (current': Option<Staged>, archive': seq<File>, manifest': ManifestMap, ok: bool)
    requires BySource(q) && i < |q|
    requires Progress(q, i, t, clock, faults, before, current, dir.files, archive, manifest)
    modifies dir
    ensures !ok ==> Cleanable(current', dir.files, before) && !RowsWork(q, i + 1, faults)
    ensures ok ==> Progress(q, i + 1, t, clock, faults, before, current', dir.files, archive', manifest')
  {
    RowsWorkStep(q, i, q[..i], faults);
    if faults.stream(i) {
      StagingIsCleanable(q[..i], t, clock, before, current, dir.files, archive);
      return current, archive, manifest, false;
    }
    current', archive', manifest', ok :=
      StageRow(q[i], t, clock, dir, current, archive, manifest, faults.row(i), q[..i], before);
  }

  /** The iterations of EachEntry over all rows; with an error the staged file is still there. */
  method StageRows(q: seq<Row>, t: SourceTable, clock: TimePrinter, dir: TempDir, faults: BuildFaults)
    returns (current: Option<Staged>, archive: seq<File>, manifest: ManifestMap, ok: bool)
    requires BySource(q)
    modifies dir
    ensures Cleanable(current, dir.files, old(dir.files))
    ensures ok ==> Staging(q, t, clock, old(dir.files), current, dir.files, archive) && Describes(manifest, q, [], t, clock)
    ensures ok <==> RowsWork(q, |q|, faults)
  {
    ghost var before := dir.files;
    current, archive, manifest, ok := None, [], map[], true;
    NoProgress(q, t, clock, faults, before);
    var i := 0;
    while i < |q|
      invariant i <= |q| && ok
      invariant Progress(q, i, t, clock, faults, before, current, dir.files, archive, manifest)
    {
      current, archive, manifest, ok := StageAt(q, i, t, clock, dir, faults, current, archive, manifest, before);
      i := i + 1;
      if !ok {
        RowsWorkShorter(q, i, faults);
        return;
      }
    }
    FullProgress(q, t, clock, faults, before, current, dir.files, archive, manifest);
  }

  /** The part of Build that runs EachEntry, with the deferred discard and the last finish. */
  method StageAll(q: seq<Row>, t: SourceTable, clock: TimePrinter, dir: TempDir, faults: BuildFaults)
    returns (archive: Result<seq<File>>, manifest: ManifestMap)
    requires BySource(q)
    modifies dir
    ensures dir.files == old(dir.files)
    ensures archive.Ok? ==> archive.value == SectionFiles(Group(q), t, clock) && Describes(manifest, q, [], t, clock)
    ensures archive.Ok? <==> StagingWorks(q, faults)
  {
    ghost var before := dir.files;
    var current, files, ok;
    current, files, manifest, ok := StageRows(q, t, clock, dir, faults);
    if !ok || faults.stream(|q|) {
      if current.Some? {
        dir.Discard(current.value.token);
      }
      return Err, manifest;
    }
    files, ok := Finish(current, dir, files, faults.finish, q, t, clock, before);
    archive := if ok then Ok(files) else Err;
  }

  /**
   * Build, over a database nobody changes meanwhile; clock prints times to the millisecond, stamp the
   * moment of the export. Whatever fails, nothing stays in the temp
   * directory. It succeeds exactly if nothing it needs fails: then the archive holds one file per section of the ordered stream of
   * matching entries, and a manifest describing exactly the sources with matching entries or gaps.
   */
  method Build(
    db: Database, f: Filter, nowMs: int, clock: TimePrinter, stamp: TimePrinter, json: Manifest -> bytes, dir: TempDir,
    faults: BuildFaults)
    returns (archive: seq<File>, ok: bool, ghost manifest: Manifest, ghost described: ManifestMap, ghost ids: seq<int>)
    requires db.Valid()
    modifies dir
    ensures dir.files == old(dir.files)
    ensures ok ==>
      var q := Query(db.entries, db.sources, Until(f, nowMs));
      && archive == SectionFiles(Group(q), db.sources, clock) + [File(MANIFEST_NAME, json(manifest))]
      && Describes(described, q, MatchingGaps(db.gaps, Until(f, nowMs), db.sources), db.sources, clock)
      && Enumerates(ids, described.Keys) && multiset(manifest.sources) == multiset(ValuesOf(ids, described))
      && InOrder(manifest.sources) && HasHead(manifest, Until(f, nowMs), nowMs, clock, stamp)
    ensures ok <==>
      && !faults.sources && !faults.gaps && !faults.write && !faults.close
      && StagingWorks(Query(db.entries, db.sources, Until(f, nowMs)), faults)
  {
    archive, ok, manifest, described, ids := [], false, Manifest([], [], [], [], []), map[], [];
    ghost var before := dir.files;
    var filter := f;
    if filter.untilMs == 0 {
      filter := filter.(untilMs := nowMs);
    }
    var all := db.AllSources(faults.sources);
    if all.Err? {
      return;
    }
    var t := all.value;
    var q := Query(db.entries, db.sources, filter);
    QueryCorrect(db.entries, db.sources, filter);
    SortedBySource(q);

    var staged, m := StageAll(q, t, clock, dir, faults);
    if staged.Err? {
      return;
    }
    archive := staged.value;
    if faults.gaps {
      return;
    }
    m := AddGaps(m, MatchingGaps(db.gaps, filter, db.sources), t, clock, q);
    described := m;
    var built;
    built, ids := BuildManifest(m, filter, nowMs, clock, stamp);
    manifest := built;
    if faults.write || faults.close {
      return;
    }
    archive := archive + [File(MANIFEST_NAME, json(built))];
    ok := true;
  }

  // --- What the archive means ---------------------------------------------------------------

  ghost predicate IsSourceOfRow(q: seq<Row>, id: int) {
    exists r :: r in q && r.entry.sourceId == id
  }

  /** The sources a manifest describes are those of the rows. */
  lemma {:induction false} RowSourcesMeaning(q: seq<Row>, id: int)
    ensures id in RowSources(q) <==> IsSourceOfRow(q, id)
    decreases |q|
  {
    if q != [] {
      var init, last := q[..|q| - 1], q[|q| - 1];
      RowSourcesMeaning(init, id);
      assert q == init + [last];
      if r :| r in init && r.entry.sourceId == id {
        assert r in q;
      }
      assert last in q;
    }
  }

  /** And of the gaps. */
  lemma {:induction false} GapSourcesMeaning(gaps: seq<Gap>, id: int)
    ensures id in GapSources(gaps) <==> exists g :: g in gaps && g.sourceId == id
    decreases |gaps|
  {
    if gaps != [] {
      var init, last := gaps[..|gaps| - 1], gaps[|gaps| - 1];
      GapSourcesMeaning(init, id);
      assert gaps == init + [last];
      if g :| g in init && g.sourceId == id {
        assert g in gaps;
      }
      assert last in gaps;
    }
  }

  lemma {:induction false} MatchingMembers(gaps: seq<Gap>, f: Filter, t: SourceTable, g: Gap)
    ensures g in MatchingGaps(gaps, f, t) <==> g in gaps && GapMatches(f, g, t)
  {
    if gaps != [] {
      MatchingMembers(gaps[1..], f, t, g);
      assert gaps == [gaps[0]] + gaps[1..];
    }
  }

  /** The manifest describes exactly the sources with a selected entry or a gap that overlaps the range. */
  lemma ManifestSourcesIff(
    m: ManifestMap, q: seq<Row>, gaps: seq<Gap>, f: Filter, t: SourceTable, clock: TimePrinter, id: int)
    requires Describes(m, q, MatchingGaps(gaps, f, t), t, clock)
    requires forall g :: g in gaps ==> Proportioned(f, g)
    ensures id in m <==> IsSourceOfRow(q, id) || exists g :: g in gaps && g.sourceId == id && Overlaps(f, g, t)
  {
    var matching := MatchingGaps(gaps, f, t);
    RowSourcesMeaning(q, id);
    GapSourcesMeaning(matching, id);
    assert id in m <==> id in RowSources(q) || id in GapSources(matching);
    forall g ensures g in matching <==> g in gaps && Overlaps(f, g, t) {
      MatchingMembers(gaps, f, t, g);
      if g in gaps {
        GapMatchesIff(f, g, t);
      }
    }
  }

  /**
   * The files of an export together hold each stored entry the filter selects exactly once, and no
   * other; each file holds the entries of one source, and no source has two files.
   */
  lemma ExportIsPartition(rows: seq<Row>, t: SourceTable, f: Filter)
    requires InIdOrder(rows)
    ensures var q := Query(rows, t, f); var ss := Group(q);
      && Flatten(ss) == q && Proper(ss)
      && (forall r :: r in Flatten(ss) <==> r in rows && Selected(r, t, f))
      && (forall i, j :: 0 <= i < j < |q| ==> q[i] != q[j] && Before(q[i], q[j], true))
      && forall k :: 0 <= k < |ss| ==> ss[k].rows == RowsOf(q, ss[k].sourceId)
  {
    QueryCorrect(rows, t, f);
    GroupIsPartition(Query(rows, t, f));
  }

  /**
   * Each file of an export bears the name of its section's source and holds the line of each of the source's selected
   * entries, in the order of the stream and nothing else.
   */
  lemma ArchiveHoldsLines(q: seq<Row>, t: SourceTable, clock: TimePrinter, k: nat, i: nat)
    requires Sorted(q, true) && k < |Group(q)| && i < |Group(q)[k].rows|
    requires forall r :: r in q ==> r.entry.sourceId in t
    ensures var id, file := Group(q)[k].sourceId, SectionFiles(Group(q), t, clock)[k];
      var rows := RowsOf(q, id);
      && id in t && file.name == FileName(t[id].component, t[id].instance)
      && i < |rows| && StandsAt(file.content, FormatLine(rows[i].entry, clock), StartOf(LinesOf(rows, clock), i))
      && |file.content| == StartOf(LinesOf(rows, clock), |rows|)
  {
    GroupIsPartition(q);
    var section := Group(q)[k];
    LineInPlace(section.rows, i, clock);
    WhereMembers(q, (x: Row) => x.entry.sourceId == section.sourceId);
    assert section.rows[i] in RowsOf(q, section.sourceId);
  }

  /** lo is an earliest and hi a latest of the rows. */
  predicate IsSpan(rows: seq<Row>, lo: Row, hi: Row) {
    && lo in rows && hi in rows
    && forall r :: r in rows ==> lo.entry.timestampMs <= r.entry.timestampMs <= hi.entry.timestampMs
  }

  /** Count, oldest and newest of a described source are the number, minimum and maximum over its rows. */
  lemma DescribedIsExact(id: int, q: seq<Row>, gaps: seq<Gap>, t: SourceTable, clock: TimePrinter)
    requires Sorted(q, true)
    ensures var d, rows := Described(id, q, gaps, t, clock), RowsOf(q, id);
      && d.entries == |rows|
      && (id in t ==> d.component == t[id].component && d.instance == t[id].instance && d.version == t[id].version)
      && d.file == (if rows == [] then [] else FileName(d.component, d.instance))
      && (d.entries > 0 ==>
            exists lo, hi ::
              IsSpan(rows, lo, hi) && d.oldest == clock(lo.entry.timestampMs) && d.newest == clock(hi.entry.timestampMs))
  {
    var rows := RowsOf(q, id);
    WhereSorted(q, (x: Row) => x.entry.sourceId == id);
    WhereMembers(q, (x: Row) => x.entry.sourceId == id);
    if rows != [] {
      forall r | r in rows
        ensures rows[0].entry.timestampMs <= r.entry.timestampMs <= rows[|rows| - 1].entry.timestampMs
      {
        EndsAreExtreme(rows, id, r);
      }
      assert IsSpan(rows, rows[0], rows[|rows| - 1]);
    }
  }
}
