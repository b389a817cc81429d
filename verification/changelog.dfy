/** What write_changelog does to a changelog seen as a preamble and a list of sections. */
module Changelog {
  import opened Options
  import opened Text
  import opened ChangelogWriter
  import R = ChangelogReader

  datatype Section = Section(version: seq<int>, date: seq<int>, body: seq<seq<int>>)
  datatype Doc = Doc(preamble: seq<seq<int>>, sections: seq<Section>)

  function SectionLines(s: Section): seq<seq<int>> {
    [Heading(s.version, s.date)] + s.body
  }

  function AllLines(ss: seq<Section>): seq<seq<int>> {
    if ss == [] then [] else SectionLines(ss[0]) + AllLines(ss[1..])
  }

  function DocLines(d: Doc): seq<seq<int>> {
    d.preamble + AllLines(d.sections)
  }

  function DocText(d: Doc): seq<int> {
    Unlines(DocLines(d))
  }

  // ---- the documents in scope: LF line ends and only dated "## [" headings ----

  predicate PlainLine(line: seq<int>) {
    forall i :: 0 <= i < |line| ==> !R.Terminator(line[i])
  }

  // After "##" there is something on the line, and it is not white space and a bracket.
  predicate BodyLine(line: seq<int>) {
    PlainLine(line) &&
    (StartsWith(line, [35, 35]) ==>
      var k := Lead(line[2..], JsSpace);
      k < |line| - 2 && (k == 0 || line[2 + k] != 91))
  }

  predicate BodyLines(lines: seq<seq<int>>) {
    forall i :: 0 <= i < |lines| ==> BodyLine(lines[i])
  }

  predicate GoodVersion(v: seq<int>) {
    v != [] && PlainLine(v) && NoBracket(v)
  }

  predicate GoodSection(s: Section) {
    GoodVersion(s.version) && R.IsDate(s.date) && BodyLines(s.body)
  }

  predicate GoodSections(ss: seq<Section>) {
    forall i :: 0 <= i < |ss| ==> GoodSection(ss[i])
  }

  // At most one section per version.
  ghost predicate Distinct(ss: seq<Section>) {
    forall i, j :: 0 <= i < j < |ss| ==> ss[i].version != ss[j].version
  }

  predicate InScope(d: Doc) {
    BodyLines(d.preamble) && GoodSections(d.sections)
  }

  ghost predicate GoodDoc(d: Doc) {
    InScope(d) && Distinct(d.sections)
  }

  // The text a section is written with, and the section it becomes.
  function BodyText(classified: seq<int>): seq<int> {
    if classified == [] then NO_CHANGES else classified
  }

  function NewSection(version: seq<int>, date: seq<int>, classified: seq<int>): Section {
    Section(version, date, [[]] + Split(BodyText(classified), NEWLINE))
  }

  // ---- the writer on documents ----

  ghost predicate HasVersion(ss: seq<Section>, v: seq<int>) {
    exists i :: 0 <= i < |ss| && ss[i].version == v
  }

  // The last section of a version, where the writer starts to replace.
  ghost function LastOf(ss: seq<Section>, v: seq<int>): nat {
    if ss == [] || (ss[0].version == v && !HasVersion(ss[1..], v)) then 0 else 1 + LastOf(ss[1..], v)
  }

  // The first section of another version after the first of this one, where it stops.
  function StopOf(ss: seq<Section>, v: seq<int>, started: bool): nat {
    if ss == [] || (started && ss[0].version != v) then 0
    else 1 + StopOf(ss[1..], v, started || ss[0].version == v)
  }

  ghost function Spliced(ss: seq<Section>, s: Section): seq<Section> {
    var l, q := LastOf(ss, s.version), StopOf(ss, s.version, false);
    if l <= |ss| && q <= |ss| then ss[..l] + [s] + ss[q..] else ss
  }

  ghost function WriteDoc(d: Doc, s: Section): Doc {
    if HasVersion(d.sections, s.version) then Doc(d.preamble, Spliced(d.sections, s))
    else if d.sections == [] then Doc(d.preamble + [[]], [s])
    else Doc(d.preamble, [s] + d.sections)
  }

  // ---- lines ----

  lemma {:induction false} UnlinesAppend(xs: seq<seq<int>>, ys: seq<seq<int>>)
    ensures Unlines(xs + ys) == Unlines(xs) + Unlines(ys)
  {
    if xs == [] {
      assert xs + ys == ys;
    } else {
      UnlinesAppend(xs[1..], ys);
      assert (xs + ys)[1..] == xs[1..] + ys;
      assert xs[0] + NEWLINE + (Unlines(xs[1..]) + Unlines(ys)) == (xs[0] + NEWLINE + Unlines(xs[1..])) + Unlines(ys);
    }
  }

  lemma {:induction false} AllLinesAppend(xs: seq<Section>, ys: seq<Section>)
    ensures AllLines(xs + ys) == AllLines(xs) + AllLines(ys)
  {
    if xs == [] {
      assert xs + ys == ys;
    } else {
      AllLinesAppend(xs[1..], ys);
      assert (xs + ys)[1..] == xs[1..] + ys;
      var a, b, c := SectionLines(xs[0]), AllLines(xs[1..]), AllLines(ys);
      assert a + (b + c) == (a + b) + c;
    }
  }

  predicate PlainLines(lines: seq<seq<int>>) {
    forall i :: 0 <= i < |lines| ==> PlainLine(lines[i])
  }

  lemma {:induction false} SplitUnlines(lines: seq<seq<int>>)
    requires PlainLines(lines)
    ensures Split(Unlines(lines), NEWLINE) == lines + [[]]
  {
    if lines != [] {
      SplitUnlines(lines[1..]);
      var rest := Unlines(lines[1..]);
      assert PlainLine(lines[0]);
      assert lines[0] + NEWLINE + rest == lines[0] + (NEWLINE + rest);
      SplitPlain(lines[0], NEWLINE + rest);
      SplitNewline(rest);
      assert lines[0] + [] == lines[0];
    }
  }

  /** Reading the lines of a rendered document gives its lines back. */
  lemma LinesUnlines(lines: seq<seq<int>>)
    requires PlainLines(lines)
    ensures Lines(Unlines(lines)) == lines
  {
    SplitUnlines(lines);
    var parts := Split(Unlines(lines), NEWLINE);
    assert parts[..|parts| - 1] == lines;
    assert forall i :: 0 <= i < |lines| ==> PlainLine(lines[i]) && StripCr(lines[i]) == lines[i];
  }

  // The lines with carriage return and newline behind each.
  function UnlinesCr(lines: seq<seq<int>>): seq<int> {
    if lines == [] then [] else lines[0] + [13, 10] + UnlinesCr(lines[1..])
  }

  lemma {:induction false} SplitUnlinesCr(lines: seq<seq<int>>, last: seq<int>)
    requires PlainLines(lines) && PlainLine(last)
    ensures var parts := Split(UnlinesCr(lines) + last, NEWLINE);
            && |parts| == |lines| + 1 && parts[|lines|] == last
            && forall i :: 0 <= i < |lines| ==> parts[i] == lines[i] + [13]
  {
    if lines == [] {
      SplitPlain(last, []);
      assert last + [] == last && [] + last == last;
    } else {
      SplitUnlinesCr(lines[1..], last);
      var rest := UnlinesCr(lines[1..]) + last;
      assert PlainLine(lines[0]);
      assert UnlinesCr(lines) + last == (lines[0] + [13]) + (NEWLINE + rest);
      SplitPlain(lines[0] + [13], NEWLINE + rest);
      SplitNewline(rest);
      assert (lines[0] + [13]) + [] == lines[0] + [13];
    }
  }

  /** Reading a file with CRLF line ends, and perhaps a last line without one, gives the same
      lines. */
  lemma LinesUnlinesCr(lines: seq<seq<int>>, last: seq<int>)
    requires PlainLines(lines) && PlainLine(last)
    ensures Lines(UnlinesCr(lines) + last) == lines + if last == [] then [] else [last]
  {
    SplitUnlinesCr(lines, last);
    assert forall i :: 0 <= i < |lines| ==> StripCr(lines[i] + [13]) == lines[i];
  }

  /** So a section is replaced as in the file with LF line ends, and all ends become LF. */
  lemma ReplacedCr(lines: seq<seq<int>>, v: seq<int>, section: seq<int>)
    requires PlainLines(lines) && ScanLines(NO_SCAN, lines, 0, VersionHeading(v)).start.Some?
    ensures Replaced(UnlinesCr(lines), v, section) == Replaced(Unlines(lines), v, section)
  {
    LinesUnlinesCr(lines, []);
    LinesUnlines(lines);
    assert UnlinesCr(lines) + [] == UnlinesCr(lines) && lines + [] == lines;
  }

  lemma {:induction false} UnlinesJoin(parts: seq<seq<int>>)
    requires parts != []
    ensures Unlines(parts) == Join(parts, NEWLINE) + NEWLINE
  {
    if |parts| == 1 {
      assert parts[1..] == [];
      assert parts[0] + NEWLINE + [] == parts[0] + NEWLINE;
    } else {
      UnlinesJoin(parts[1..]);
      assert parts[0] + NEWLINE + (Join(parts[1..], NEWLINE) + NEWLINE) == (parts[0] + NEWLINE + Join(parts[1..], NEWLINE)) + NEWLINE;
    }
  }

  lemma BodyOfNew(classified: seq<int>)
    ensures Unlines([[]] + Split(BodyText(classified), NEWLINE)) == NEWLINE + BodyText(classified) + NEWLINE
  {
    var parts := Split(BodyText(classified), NEWLINE);
    JoinSplit(BodyText(classified), NEWLINE);
    UnlinesJoin(parts);
    assert ([[]] + parts)[1..] == parts;
    assert [] + NEWLINE == NEWLINE;
  }

  /** The pieces of text the writer puts in, spelled out. */
  lemma SectionReads(version: seq<int>, date: seq<int>, classified: seq<int>)
    ensures SectionText(version, date, classified) ==
            Codes("## [") + version + Codes("] - ") + date + Codes("\n\n")
            + if classified == [] then Codes("_No notable changes._\n") else classified
    ensures TITLE == Codes("# Changelog\n\n")
  {
    assert HEADING == Codes("## [") && DASH == Codes("] - ") && [10, 10] == Codes("\n\n");
    assert NO_CHANGES == Codes("_No notable changes._\n");
  }

  /** What the writer pushes for the section is the section rendered as lines. */
  lemma NewSectionLines(version: seq<int>, date: seq<int>, classified: seq<int>)
    ensures SectionText(version, date, classified) + NEWLINE == Unlines(SectionLines(NewSection(version, date, classified)))
  {
    BodyOfNew(classified);
    var s := NewSection(version, date, classified);
    assert SectionLines(s)[1..] == s.body;
    var h, t := Heading(version, date), BodyText(classified);
    assert (h + [10, 10] + t) + NEWLINE == h + NEWLINE + (NEWLINE + t + NEWLINE);
  }

  // ---- recognising headings ----

  predicate NoBracket(v: seq<int>) {
    forall i :: 0 <= i < |v| ==> v[i] != 93
  }

  lemma {:induction false} BracketEnds(v: seq<int>, x: seq<int>, w: seq<int>, y: seq<int>)
    requires NoBracket(v) && NoBracket(w)
    requires v + [93] + x == w + [93] + y
    ensures v == w
  {
    var s, t := v + [93] + x, w + [93] + y;
    assert v != [] ==> s[0] == v[0];
    assert w != [] ==> t[0] == w[0];
    if v != [] && w != [] {
      assert s[1..] == v[1..] + [93] + x;
      assert t[1..] == w[1..] + [93] + y;
      BracketEnds(v[1..], x, w[1..], y);
      assert v == [v[0]] + v[1..] && w == [w[0]] + w[1..];
    }
  }

  lemma HeadingStarts(v: seq<int>, w: seq<int>, d: seq<int>)
    requires GoodVersion(v) && GoodVersion(w)
    ensures StartsWith(Heading(w, d), HEADING)
    ensures StartsWith(Heading(w, d), VersionHeading(v)) <==> v == w
  {
    var h, p := Heading(w, d), VersionHeading(v);
    assert h[..4] == HEADING;
    if v == w {
      assert h[..|p|] == p;
    }
    if StartsWith(h, p) {
      assert h == p + h[|p|..];
      assert h[4..] == w + [93] + ([32, 45, 32] + d);
      assert p[4..] == v + [93];
      assert h[4..] == p[4..] + h[|p|..];
      BracketEnds(v, h[|p|..], w, [32, 45, 32] + d);
    }
  }

  lemma HeadingIsNoBody(line: seq<int>)
    requires StartsWith(line, HEADING)
    ensures !BodyLine(line)
  {
    assert line[..4] == HEADING;
    assert line[2] == 32 && line[3] == 91;
    assert line[..2] == [35, 35];
    var r := line[2..];
    assert r[0] == 32 && r[1..][0] == 91;
    assert Lead(r, JsSpace) == 1;
  }

  lemma VersionIsHeading(line: seq<int>, v: seq<int>)
    ensures StartsWith(line, VersionHeading(v)) ==> StartsWith(line, HEADING)
  {
    assert VersionHeading(v)[..4] == HEADING;
  }

  lemma BodyIsNoHeading(line: seq<int>, v: seq<int>)
    requires BodyLine(line)
    ensures !StartsWith(line, HEADING) && !StartsWith(line, VersionHeading(v))
  {
    VersionIsHeading(line, v);
    if StartsWith(line, HEADING) {
      HeadingIsNoBody(line);
    }
  }

  // ---- the regex searches of the writer ----

  lemma PrefixOfLine(line: seq<int>, rest: seq<int>, prefix: seq<int>)
    requires PlainLine(prefix)
    ensures StartsWith(line + NEWLINE + rest, prefix) <==> StartsWith(line, prefix)
  {
    var s := line + NEWLINE + rest;
    assert s[|line|] == 10;
    assert s[..|line|] == line;
    if StartsWith(s, prefix) {
      assert prefix == s[..|prefix|];
      assert |prefix| <= |line|;
      assert s[..|prefix|] == line[..|prefix|];
    }
  }

  lemma {:induction false} FindSkip(line: seq<int>, rest: seq<int>, prefix: seq<int>)
    requires PlainLine(line)
    ensures FindLine(line + NEWLINE + rest, prefix, false) ==
            var r := FindLine(rest, prefix, true); if r < 0 then -1 else r + |line| + 1
  {
    var s := line + NEWLINE + rest;
    if line == [] {
      assert s[1..] == rest;
    } else {
      FindSkip(line[1..], rest, prefix);
      assert s[1..] == line[1..] + NEWLINE + rest;
      assert s[0] == line[0] && !R.Terminator(line[0]);
    }
  }

  lemma FindPast(line: seq<int>, rest: seq<int>, prefix: seq<int>)
    requires PlainLine(line) && PlainLine(prefix) && !StartsWith(line, prefix)
    ensures FindLine(line + NEWLINE + rest, prefix, true) ==
            var r := FindLine(rest, prefix, true); if r < 0 then -1 else r + |line| + 1
  {
    PrefixOfLine(line, rest, prefix);
    FindSkip(line, rest, prefix);
    assert line + NEWLINE + rest != [];
  }

  ghost predicate NoneStarts(lines: seq<seq<int>>, prefix: seq<int>) {
    forall i :: 0 <= i < |lines| ==> !StartsWith(lines[i], prefix)
  }

  lemma {:induction false} FindPastAll(lines: seq<seq<int>>, rest: seq<int>, prefix: seq<int>)
    requires PlainLines(lines) && PlainLine(prefix) && NoneStarts(lines, prefix)
    ensures FindLine(Unlines(lines) + rest, prefix, true) ==
            var r := FindLine(rest, prefix, true); if r < 0 then -1 else r + |Unlines(lines)|
  {
    if lines == [] {
      assert Unlines(lines) + rest == rest;
    } else {
      FindPastAll(lines[1..], rest, prefix);
      var more := Unlines(lines[1..]) + rest;
      assert Unlines(lines) + rest == lines[0] + NEWLINE + more;
      FindPast(lines[0], more, prefix);
    }
  }

  // ---- the lines of a good document ----

  lemma HeadingIsPlain(v: seq<int>, d: seq<int>)
    requires GoodVersion(v) && R.IsDate(d)
    ensures PlainLine(Heading(v, d)) && PlainLine(VersionHeading(v)) && PlainLine(HEADING)
  {
    assert PlainLine(d);
    PlainAppend(HEADING, v);
    PlainAppend(HEADING + v, [93]);
    PlainAppend(HEADING + v, DASH);
    PlainAppend(HEADING + v + DASH, d);
  }

  lemma PlainAppend(a: seq<int>, b: seq<int>)
    requires PlainLine(a) && PlainLine(b)
    ensures PlainLine(a + b)
  {
  }

  lemma PlainLinesAppend(a: seq<seq<int>>, b: seq<seq<int>>)
    requires PlainLines(a) && PlainLines(b)
    ensures PlainLines(a + b)
  {
  }

  lemma SectionIsPlain(s: Section)
    requires GoodSection(s)
    ensures PlainLines(SectionLines(s))
  {
    HeadingIsPlain(s.version, s.date);
    assert forall i :: 0 <= i < |s.body| ==> BodyLine(s.body[i]);
    assert PlainLines([Heading(s.version, s.date)]);
    PlainLinesAppend([Heading(s.version, s.date)], s.body);
  }

  lemma {:induction false} SectionsArePlain(ss: seq<Section>)
    requires GoodSections(ss)
    ensures PlainLines(AllLines(ss))
  {
    if ss != [] {
      SectionIsPlain(ss[0]);
      SectionsArePlain(ss[1..]);
      PlainLinesAppend(SectionLines(ss[0]), AllLines(ss[1..]));
    }
  }

  lemma NoneStartsAppend(a: seq<seq<int>>, b: seq<seq<int>>, prefix: seq<int>)
    requires NoneStarts(a, prefix) && NoneStarts(b, prefix)
    ensures NoneStarts(a + b, prefix)
  {
  }

  lemma BodyHasNoHeading(lines: seq<seq<int>>, v: seq<int>)
    requires BodyLines(lines)
    ensures NoneStarts(lines, HEADING) && NoneStarts(lines, VersionHeading(v)) && PlainLines(lines)
  {
    forall i | 0 <= i < |lines|
      ensures PlainLine(lines[i]) && !StartsWith(lines[i], HEADING) && !StartsWith(lines[i], VersionHeading(v))
    {
      BodyIsNoHeading(lines[i], v);
    }
  }

  lemma {:induction false} NoSuchHeading(ss: seq<Section>, v: seq<int>)
    requires GoodSections(ss) && GoodVersion(v)
    requires forall i :: 0 <= i < |ss| ==> ss[i].version != v
    ensures NoneStarts(AllLines(ss), VersionHeading(v))
  {
    if ss != [] {
      NoSuchHeading(ss[1..], v);
      var h := Heading(ss[0].version, ss[0].date);
      assert GoodSection(ss[0]);
      HeadingStarts(v, ss[0].version, ss[0].date);
      BodyHasNoHeading(ss[0].body, v);
      NoneStartsAppend([h], ss[0].body, VersionHeading(v));
      NoneStartsAppend(SectionLines(ss[0]), AllLines(ss[1..]), VersionHeading(v));
    }
  }

  lemma FindAbsent(lines: seq<seq<int>>, prefix: seq<int>)
    requires PlainLines(lines) && PlainLine(prefix) && prefix != [] && NoneStarts(lines, prefix)
    ensures FindLine(Unlines(lines), prefix, true) == -1
  {
    FindPastAll(lines, [], prefix);
    assert Unlines(lines) + [] == Unlines(lines);
  }

  lemma FindPresent(lines: seq<seq<int>>, line: seq<int>, more: seq<seq<int>>, prefix: seq<int>)
    requires PlainLines(lines) && PlainLine(prefix) && NoneStarts(lines, prefix) && StartsWith(line, prefix)
    ensures FindLine(Unlines(lines) + Unlines([line] + more), prefix, true) == |Unlines(lines)|
  {
    assert ([line] + more)[1..] == more;
    PrefixOfLine(line, Unlines(more), prefix);
    FindPastAll(lines, Unlines([line] + more), prefix);
  }

  // ---- the scan for the section ----

  // Lines the scan passes over without changing `start` or `end`.
  ghost predicate Quiet(sc: Scan, lines: seq<seq<int>>, heading: seq<int>) {
    && NoneStarts(lines, heading)
    && (sc.start.Some? && sc.end.None? ==> NoneStarts(lines, HEADING))
  }

  lemma {:induction false} ScanQuiet(sc: Scan, lines: seq<seq<int>>, more: seq<seq<int>>, i: nat, heading: seq<int>)
    requires Quiet(sc, lines, heading)
    ensures ScanLines(sc, lines + more, i, heading) == ScanLines(sc, more, i + |lines|, heading)
  {
    if lines == [] {
      assert lines + more == more;
    } else {
      assert (lines + more)[0] == lines[0] && (lines + more)[1..] == lines[1..] + more;
      assert ScanLine(sc, lines[0], i, heading) == sc;
      ScanQuiet(sc, lines[1..], more, i + 1, heading);
    }
  }

  lemma ScanStep(sc: Scan, line: seq<int>, more: seq<seq<int>>, i: nat, heading: seq<int>)
    ensures ScanLines(sc, [line] + more, i, heading) == ScanLines(ScanLine(sc, line, i, heading), more, i + 1, heading)
  {
    assert ([line] + more)[1..] == more;
  }

  lemma HasCons(ss: seq<Section>, v: seq<int>)
    requires ss != []
    ensures HasVersion(ss, v) <==> ss[0].version == v || HasVersion(ss[1..], v)
  {
    if HasVersion(ss[1..], v) {
      var i :| 0 <= i < |ss[1..]| && ss[1..][i].version == v;
      assert ss[i + 1].version == v;
    }
    if HasVersion(ss, v) && ss[0].version != v {
      var i :| 0 <= i < |ss| && ss[i].version == v;
      assert ss[1..][i - 1].version == v;
    }
  }

  lemma {:induction false} LastShape(ss: seq<Section>, v: seq<int>)
    requires HasVersion(ss, v)
    ensures var l := LastOf(ss, v);
            l < |ss| && ss[l].version == v && forall i :: l < i < |ss| ==> ss[i].version != v
  {
    HasCons(ss, v);
    if HasVersion(ss[1..], v) {
      LastShape(ss[1..], v);
      assert forall i :: 0 < i < |ss| ==> ss[i] == ss[1..][i - 1];
    } else {
      forall i | 0 < i < |ss| ensures ss[i].version != v {
        assert ss[i] == ss[1..][i - 1];
      }
    }
  }

  lemma {:induction false} StopBound(ss: seq<Section>, v: seq<int>, started: bool)
    ensures StopOf(ss, v, started) <= |ss|
  {
    if ss != [] && !(started && ss[0].version != v) {
      StopBound(ss[1..], v, started || ss[0].version == v);
    }
  }

  // How many lines come before section k.
  function Offset(ss: seq<Section>, k: nat): nat
    requires k <= |ss|
  {
    |AllLines(ss[..k])|
  }

  lemma OffsetCons(ss: seq<Section>, k: nat)
    requires k < |ss|
    ensures Offset(ss, k + 1) == |SectionLines(ss[0])| + Offset(ss[1..], k)
  {
    assert ss[..k + 1][0] == ss[0] && ss[..k + 1][1..] == ss[1..][..k];
  }

  // What the scan makes of the sections `ss`, the first line of which has index i.
  ghost function StartAfter(sc: Scan, ss: seq<Section>, i: nat, v: seq<int>): Option<nat> {
    if HasVersion(ss, v) && LastOf(ss, v) <= |ss| then Some(i + Offset(ss, LastOf(ss, v))) else sc.start
  }

  ghost function EndAfter(sc: Scan, ss: seq<Section>, i: nat, v: seq<int>): Option<nat> {
    var q := StopOf(ss, v, sc.start.Some?);
    if sc.end.Some? then sc.end else if q < |ss| then Some(i + Offset(ss, q)) else None
  }

  lemma ScanOne(sc: Scan, s: Section, rest: seq<seq<int>>, i: nat, v: seq<int>)
    requires GoodSection(s) && GoodVersion(v)
    ensures ScanLines(sc, SectionLines(s) + rest, i, VersionHeading(v)) ==
            ScanLines(AfterHeading(sc, s, i, v), rest, i + |SectionLines(s)|, VersionHeading(v))
  {
    var h, vh := Heading(s.version, s.date), VersionHeading(v);
    HeadingStarts(v, s.version, s.date);
    Reassociate([h], s.body, rest);
    ScanStep(sc, h, s.body + rest, i, vh);
    BodyHasNoHeading(s.body, v);
    ScanQuiet(AfterHeading(sc, s, i, v), s.body, rest, i + 1, vh);
  }

  function AfterHeading(sc: Scan, s: Section, i: nat, v: seq<int>): Scan {
    if s.version == v then sc.(start := Some(i))
    else if sc.start.Some? && sc.end.None? then sc.(end := Some(i))
    else sc
  }

  lemma StartCons(sc: Scan, ss: seq<Section>, i: nat, v: seq<int>)
    requires ss != []
    ensures var sc' := AfterHeading(sc, ss[0], i, v);
            StartAfter(sc', ss[1..], i + |SectionLines(ss[0])|, v) == StartAfter(sc, ss, i, v)
  {
    HasCons(ss, v);
    if HasVersion(ss[1..], v) {
      LastShape(ss[1..], v);
      OffsetCons(ss, LastOf(ss[1..], v));
    } else if ss[0].version == v {
      assert ss[..0] == [];
    }
  }

  lemma EndCons(sc: Scan, ss: seq<Section>, i: nat, v: seq<int>)
    requires ss != []
    ensures var sc' := AfterHeading(sc, ss[0], i, v);
            EndAfter(sc', ss[1..], i + |SectionLines(ss[0])|, v) == EndAfter(sc, ss, i, v)
  {
    var started := sc.start.Some?;
    if sc.end.None? {
      if started && ss[0].version != v {
        assert ss[..0] == [];
      } else {
        var q := StopOf(ss[1..], v, started || ss[0].version == v);
        if q < |ss[1..]| { OffsetCons(ss, q); }
      }
    }
  }

  /** Over the sections of a document the scan sets `start` at the last heading of the version
      and `end` at the first other heading after its first one. */
  lemma {:induction false} ScanSections(sc: Scan, ss: seq<Section>, i: nat, v: seq<int>)
    requires GoodSections(ss) && GoodVersion(v)
    ensures ScanLines(sc, AllLines(ss), i, VersionHeading(v)) == Scan(StartAfter(sc, ss, i, v), EndAfter(sc, ss, i, v))
    decreases |ss|
  {
    if ss != [] {
      assert GoodSection(ss[0]);
      ScanOne(sc, ss[0], AllLines(ss[1..]), i, v);
      ScanSections(AfterHeading(sc, ss[0], i, v), ss[1..], i + |SectionLines(ss[0])|, v);
      StartCons(sc, ss, i, v);
      EndCons(sc, ss, i, v);
    }
  }

  // ---- the three cases of the writer ----

  lemma CutAtSection(preamble: seq<seq<int>>, ss: seq<Section>, k: nat)
    requires k <= |ss|
    ensures var lines, n := preamble + AllLines(ss), |preamble| + Offset(ss, k);
            n <= |lines| && lines[..n] == preamble + AllLines(ss[..k]) && lines[n..] == AllLines(ss[k..])
  {
    assert ss == ss[..k] + ss[k..];
    AllLinesAppend(ss[..k], ss[k..]);
    ThreeParts(preamble, AllLines(ss[..k]), AllLines(ss[k..]));
  }

  lemma ThreeParts<T>(a: seq<T>, b: seq<T>, c: seq<T>)
    ensures (a + (b + c))[..|a| + |b|] == a + b && (a + (b + c))[|a| + |b|..] == c
  {
  }

  lemma SplicedLines(preamble: seq<seq<int>>, ss: seq<Section>, l: nat, q: nat, s: Section)
    requires l <= |ss| && q <= |ss|
    ensures DocLines(Doc(preamble, ss[..l] + [s] + ss[q..])) ==
            (preamble + AllLines(ss[..l])) + (SectionLines(s) + AllLines(ss[q..]))
  {
    AllLinesAppend(ss[..l] + [s], ss[q..]);
    AllLinesAppend(ss[..l], [s]);
    assert [s][1..] == [] && AllLines([s]) == SectionLines(s) + [] == SectionLines(s);
    FourParts(preamble, AllLines(ss[..l]), SectionLines(s), AllLines(ss[q..]));
  }

  lemma FourParts<T>(a: seq<T>, b: seq<T>, c: seq<T>, d: seq<T>)
    ensures a + ((b + c) + d) == (a + b) + (c + d)
  {
  }

  lemma Regather(a: seq<int>, b: seq<int>, c: seq<int>, d: seq<int>)
    requires b + NEWLINE == c
    ensures a + b + NEWLINE + d == a + (c + d)
  {
    assert a + b + NEWLINE + d == a + ((b + NEWLINE) + d);
  }

  lemma ReplacedIs(lines: seq<seq<int>>, end: Option<nat>, start: nat, version: seq<int>, section: seq<int>)
    requires PlainLines(lines) && start <= |lines| && (end.Some? ==> end.value <= |lines|)
    requires ScanLines(NO_SCAN, lines, 0, VersionHeading(version)) == Scan(Some(start), end)
    ensures Replaced(Unlines(lines), version, section) == Assemble(lines, Scan(Some(start), end), section)
  {
    LinesUnlines(lines);
  }

  // Where the scan ends up: `end` is absent when no other section follows the run.
  function StopLine(d: Doc, q: nat): Option<nat>
    requires q <= |d.sections|
  {
    if q < |d.sections| then Some(|d.preamble| + Offset(d.sections, q)) else None
  }

  lemma ScanDoc(d: Doc, v: seq<int>, l: nat, q: nat)
    requires InScope(d) && GoodVersion(v) && HasVersion(d.sections, v)
    requires l == LastOf(d.sections, v) <= |d.sections| && q == StopOf(d.sections, v, false) <= |d.sections|
    ensures ScanLines(NO_SCAN, DocLines(d), 0, VersionHeading(v)) ==
            Scan(Some(|d.preamble| + Offset(d.sections, l)), StopLine(d, q))
  {
    BodyHasNoHeading(d.preamble, v);
    ScanQuiet(NO_SCAN, d.preamble, AllLines(d.sections), 0, VersionHeading(v));
    ScanSections(NO_SCAN, d.sections, |d.preamble|, v);
  }

  lemma StopCuts(d: Doc, q: nat)
    requires q <= |d.sections|
    ensures var end, rest := StopLine(d, q), AllLines(d.sections[q..]);
            if end.Some? then end.value <= |DocLines(d)| && DocLines(d)[end.value..] == rest else rest == []
  {
    CutAtSection(d.preamble, d.sections, q);
    assert q == |d.sections| ==> d.sections[q..] == [];
  }

  // From the last section of the version on, up to where the scan stopped.
  lemma AssembleSpliced(d: Doc, l: nat, q: nat, s: Section, section: seq<int>)
    requires l <= |d.sections| && q <= |d.sections| && section + NEWLINE == Unlines(SectionLines(s))
    ensures var start := |d.preamble| + Offset(d.sections, l);
            var end := StopLine(d, q);
            && start <= |DocLines(d)| && (end.Some? ==> end.value <= |DocLines(d)|)
            && Assemble(DocLines(d), Scan(Some(start), end), section) ==
               DocText(Doc(d.preamble, d.sections[..l] + [s] + d.sections[q..]))
  {
    var ss := d.sections;
    CutAtSection(d.preamble, ss, l);
    StopCuts(d, q);
    AssembleIs(DocLines(d), |d.preamble| + Offset(ss, l), StopLine(d, q), section,
      d.preamble + AllLines(ss[..l]), AllLines(ss[q..]));
    InsertLines(d.preamble + AllLines(ss[..l]), SectionLines(s), AllLines(ss[q..]), section);
    SplicedLines(d.preamble, ss, l, q, s);
  }

  lemma AssembleIs(lines: seq<seq<int>>, start: nat, end: Option<nat>, section: seq<int>,
                   before: seq<seq<int>>, rest: seq<seq<int>>)
    requires start <= |lines| && lines[..start] == before
    requires if end.Some? then end.value <= |lines| && lines[end.value..] == rest else rest == []
    ensures Assemble(lines, Scan(Some(start), end), section) == Unlines(before) + section + NEWLINE + Unlines(rest)
  {
  }

  /** Replacing: what stands between the last section of the version and the stop is swapped
      for the new section. */
  lemma {:induction false} WriteReplaces(d: Doc, v: seq<int>, date: seq<int>, classified: seq<int>)
    requires InScope(d) && GoodVersion(v) && HasVersion(d.sections, v)
    ensures Replaced(DocText(d), v, SectionText(v, date, classified)) ==
            DocText(Doc(d.preamble, Spliced(d.sections, NewSection(v, date, classified))))
  {
    var l, q := LastOf(d.sections, v), StopOf(d.sections, v, false);
    LastShape(d.sections, v);
    StopBound(d.sections, v, false);
    DocIsPlain(d);
    ScanDoc(d, v, l, q);
    NewSectionLines(v, date, classified);
    AssembleSpliced(d, l, q, NewSection(v, date, classified), SectionText(v, date, classified));
    ReplacedIs(DocLines(d), StopLine(d, q), |d.preamble| + Offset(d.sections, l), v, SectionText(v, date, classified));
  }

  lemma BeforeIsClear(d: Doc, m: nat, v: seq<int>)
    requires InScope(d) && GoodVersion(v) && m <= |d.sections| && forall j :: 0 <= j < m ==> d.sections[j].version != v
    ensures NoneStarts(d.preamble + AllLines(d.sections[..m]), VersionHeading(v))
    ensures PlainLines(d.preamble + AllLines(d.sections[..m]))
  {
    BodyHasNoHeading(d.preamble, v);
    NoSuchHeading(d.sections[..m], v);
    NoneStartsAppend(d.preamble, AllLines(d.sections[..m]), VersionHeading(v));
    SectionsArePlain(d.sections[..m]);
    PlainLinesAppend(d.preamble, AllLines(d.sections[..m]));
  }

  lemma DocIsPlain(d: Doc)
    requires InScope(d)
    ensures PlainLines(DocLines(d))
  {
    BodyHasNoHeading(d.preamble, []);
    SectionsArePlain(d.sections);
    PlainLinesAppend(d.preamble, AllLines(d.sections));
  }

  lemma {:induction false} FirstIndex(ss: seq<Section>, v: seq<int>) returns (m: nat)
    requires HasVersion(ss, v)
    ensures m < |ss| && ss[m].version == v && forall j :: 0 <= j < m ==> ss[j].version != v
  {
    HasCons(ss, v);
    if ss[0].version == v {
      m := 0;
    } else {
      m := FirstIndex(ss[1..], v);
      assert forall j :: 0 < j < |ss| ==> ss[j] == ss[1..][j - 1];
      m := m + 1;
    }
  }

  lemma WriteFindsVersion(d: Doc, v: seq<int>)
    requires InScope(d) && GoodVersion(v) && HasVersion(d.sections, v)
    ensures FindLine(DocText(d), VersionHeading(v), true) >= 0
  {
    var m := FirstIndex(d.sections, v);
    var s := d.sections[m];
    var before, tail := d.preamble + AllLines(d.sections[..m]), AllLines(d.sections[m..]);
    BeforeIsClear(d, m, v);
    CutAtSection(d.preamble, d.sections, m);
    assert DocLines(d) == before + tail;
    UnlinesAppend(before, tail);
    HeadingStarts(v, s.version, s.date);
    HeadingIsPlain(s.version, s.date);
    assert d.sections[m..][0] == s && tail[0] == Heading(s.version, s.date);
    assert tail == [tail[0]] + tail[1..];
    FindPresent(before, tail[0], tail[1..], VersionHeading(v));
  }

  lemma WriteMissesVersion(d: Doc, v: seq<int>)
    requires InScope(d) && GoodVersion(v) && !HasVersion(d.sections, v)
    ensures FindLine(DocText(d), VersionHeading(v), true) == -1
  {
    BodyHasNoHeading(d.preamble, v);
    NoSuchHeading(d.sections, v);
    NoneStartsAppend(d.preamble, AllLines(d.sections), VersionHeading(v));
    DocIsPlain(d);
    PlainAppend(HEADING, v);
    PlainAppend(HEADING + v, [93]);
    FindAbsent(DocLines(d), VersionHeading(v));
  }

  /** Inserting: the new section goes between the preamble and the first section. */
  lemma WriteInserts(d: Doc, v: seq<int>, date: seq<int>, classified: seq<int>)
    requires InScope(d) && GoodVersion(v) && !HasVersion(d.sections, v) && d.sections != []
    ensures Written(Some(DocText(d)), v, date, classified) ==
            DocText(Doc(d.preamble, [NewSection(v, date, classified)] + d.sections))
  {
    WriteMissesVersion(d, v);
    BodyHasNoHeading(d.preamble, v);
    var first, lines := d.sections[0], AllLines(d.sections);
    assert GoodSection(first);
    HeadingStarts(v, first.version, first.date);
    HeadingIsPlain(first.version, first.date);
    UnlinesAppend(d.preamble, lines);
    assert lines == [lines[0]] + lines[1..];
    FindPresent(d.preamble, lines[0], lines[1..], HEADING);
    var p, q := Unlines(d.preamble), Unlines(lines);
    assert (p + q)[..|p|] == p && (p + q)[|p|..] == q;
    var s := NewSection(v, date, classified);
    NewSectionLines(v, date, classified);
    InsertLines(d.preamble, SectionLines(s), lines, SectionText(v, date, classified));
    assert ([s] + d.sections)[1..] == d.sections;
  }

  lemma InsertLines(before: seq<seq<int>>, added: seq<seq<int>>, rest: seq<seq<int>>, section: seq<int>)
    requires section + NEWLINE == Unlines(added)
    ensures Unlines(before) + section + NEWLINE + Unlines(rest) == Unlines(before + (added + rest))
  {
    UnlinesAppend(added, rest);
    UnlinesAppend(before, added + rest);
    Regather(Unlines(before), section, Unlines(added), Unlines(rest));
  }

  /** Appending: with no section at all, the new one goes after the preamble and a blank line. */
  lemma WriteAppends(preamble: seq<seq<int>>, v: seq<int>, date: seq<int>, classified: seq<int>)
    requires BodyLines(preamble) && GoodVersion(v)
    ensures Written(Some(DocText(Doc(preamble, []))), v, date, classified) ==
            DocText(Doc(preamble + [[]], [NewSection(v, date, classified)]))
  {
    var d := Doc(preamble, []);
    assert DocLines(d) == preamble;
    WriteMissesVersion(d, v);
    BodyHasNoHeading(preamble, v);
    FindAbsent(preamble, HEADING);
    var s := NewSection(v, date, classified);
    NewSectionLines(v, date, classified);
    InsertLines(preamble + [[]], SectionLines(s), [], SectionText(v, date, classified));
    UnlinesAppend(preamble, [[]]);
    assert Unlines([[]]) == NEWLINE;
    assert SectionLines(s) + [] == SectionLines(s) == AllLines([s]);
  }

  // ---- the main results about the writer ----

  /** On every such document, repeated versions or not, write_changelog is an edit of sections:
      the text it writes is the document with the new section spliced in, put first, or
      appended. */
  lemma WriteEditsSections(d: Doc, v: seq<int>, date: seq<int>, classified: seq<int>)
    requires InScope(d) && GoodVersion(v)
    ensures Written(Some(DocText(d)), v, date, classified) == DocText(WriteDoc(d, NewSection(v, date, classified)))
  {
    if HasVersion(d.sections, v) {
      WriteFindsVersion(d, v);
      WriteReplaces(d, v, date, classified);
    } else if d.sections == [] {
      WriteAppends(d.preamble, v, date, classified);
      assert d == Doc(d.preamble, []);
    } else {
      WriteInserts(d, v, date, classified);
    }
  }

  // ---- when the other sections stay ----

  // The sections of other versions, and those of this one, in order.
  function Without(ss: seq<Section>, v: seq<int>): seq<Section> {
    if ss == [] then [] else (if ss[0].version == v then [] else [ss[0]]) + Without(ss[1..], v)
  }

  function With(ss: seq<Section>, v: seq<int>): seq<Section> {
    if ss == [] then [] else (if ss[0].version == v then [ss[0]] else []) + With(ss[1..], v)
  }

  lemma {:induction false} WithoutAppend(xs: seq<Section>, ys: seq<Section>, v: seq<int>)
    ensures Without(xs + ys, v) == Without(xs, v) + Without(ys, v)
  {
    if xs == [] {
      assert xs + ys == ys;
    } else {
      WithoutAppend(xs[1..], ys, v);
      CutInFirst(xs, ys, 1);
      Reassociate(if xs[0].version == v then [] else [xs[0]], Without(xs[1..], v), Without(ys, v));
    }
  }

  lemma {:induction false} WithAppend(xs: seq<Section>, ys: seq<Section>, v: seq<int>)
    ensures With(xs + ys, v) == With(xs, v) + With(ys, v)
  {
    if xs == [] {
      assert xs + ys == ys;
    } else {
      WithAppend(xs[1..], ys, v);
      CutInFirst(xs, ys, 1);
      Reassociate(if xs[0].version == v then [xs[0]] else [], With(xs[1..], v), With(ys, v));
    }
  }

  lemma FiltersAppend(xs: seq<Section>, ys: seq<Section>, v: seq<int>)
    ensures Without(xs + ys, v) == Without(xs, v) + Without(ys, v)
    ensures With(xs + ys, v) == With(xs, v) + With(ys, v)
  {
    WithoutAppend(xs, ys, v);
    WithAppend(xs, ys, v);
  }

  lemma {:induction false} AbsentVersion(ss: seq<Section>, v: seq<int>)
    requires forall i :: 0 <= i < |ss| ==> ss[i].version != v
    ensures With(ss, v) == [] && Without(ss, v) == ss
  {
    if ss != [] {
      AbsentVersion(ss[1..], v);
    }
  }

  lemma {:induction false} OnlyVersion(ss: seq<Section>, v: seq<int>)
    requires forall i :: 0 <= i < |ss| ==> ss[i].version == v
    ensures With(ss, v) == ss && Without(ss, v) == []
  {
    if ss != [] {
      OnlyVersion(ss[1..], v);
    }
  }

  lemma {:induction false} StopStarted(ss: seq<Section>, v: seq<int>)
    ensures var q := StopOf(ss, v, true);
            && q <= |ss| && (forall i :: 0 <= i < q ==> ss[i].version == v)
            && (q < |ss| ==> ss[q].version != v)
  {
    if ss != [] && ss[0].version == v {
      StopStarted(ss[1..], v);
      assert forall i :: 0 < i < |ss| ==> ss[i] == ss[1..][i - 1];
    }
  }

  // The stop is the end of the first run of sections of the version.
  lemma {:induction false} StopShape(ss: seq<Section>, v: seq<int>) returns (f: nat)
    requires HasVersion(ss, v)
    ensures var q := StopOf(ss, v, false);
            && f < q <= |ss| && (forall i :: 0 <= i < f ==> ss[i].version != v)
            && (forall i :: f <= i < q ==> ss[i].version == v) && (q < |ss| ==> ss[q].version != v)
  {
    HasCons(ss, v);
    assert forall i :: 0 < i < |ss| ==> ss[i] == ss[1..][i - 1];
    if ss[0].version == v {
      StopStarted(ss[1..], v);
      f := 0;
    } else {
      f := StopShape(ss[1..], v);
      f := f + 1;
    }
  }

  // No section of another version stands between two of this one.
  ghost predicate Gathered(ss: seq<Section>, v: seq<int>) {
    forall i, j, k :: 0 <= i < j < k < |ss| && ss[i].version == v && ss[k].version == v ==> ss[j].version == v
  }

  // At most one section of this version.
  ghost predicate Once(ss: seq<Section>, v: seq<int>) {
    forall i, j :: 0 <= i < j < |ss| ==> !(ss[i].version == v && ss[j].version == v)
  }

  lemma SplicedFilters(ss: seq<Section>, s: Section, l: nat, q: nat)
    requires l <= |ss| && q <= |ss|
    ensures Without(ss[..l] + [s] + ss[q..], s.version) == Without(ss[..l], s.version) + Without(ss[q..], s.version)
    ensures With(ss[..l] + [s] + ss[q..], s.version) == With(ss[..l], s.version) + [s] + With(ss[q..], s.version)
  {
    FiltersAppend(ss[..l] + [s], ss[q..], s.version);
    FiltersAppend(ss[..l], [s], s.version);
    OnlyVersion([s], s.version);
    assert Without(ss[..l], s.version) + [] == Without(ss[..l], s.version);
  }

  lemma StaysWhenGathered(ss: seq<Section>, v: seq<int>, l: nat)
    requires l < |ss| && ss[l].version == v
    ensures Without(ss, v) == Without(ss[..l], v) + Without(ss[l + 1..], v)
  {
    assert ss == ss[..l] + ([ss[l]] + ss[l + 1..]);
    FiltersAppend(ss[..l], [ss[l]] + ss[l + 1..], v);
    FiltersAppend([ss[l]], ss[l + 1..], v);
    OnlyVersion([ss[l]], v);
  }

  lemma DoublesWhenScattered(ss: seq<Section>, v: seq<int>, q: nat, l: nat)
    requires q < l <= |ss| && ss[q].version != v
    ensures |Without(ss[..l], v) + Without(ss[q..], v)| > |Without(ss, v)|
  {
    assert ss == ss[..q] + ss[q..] && ss[..l] == ss[..q] + ss[q..l];
    FiltersAppend(ss[..q], ss[q..], v);
    FiltersAppend(ss[..q], ss[q..l], v);
    assert ss[q..l][0] == ss[q];
  }

  /** Replacing a section leaves every other section unchanged, once and in order, if and only
      if no other version's section stands between two of the version written. */
  lemma OthersStayIff(ss: seq<Section>, s: Section)
    requires HasVersion(ss, s.version)
    ensures Without(Spliced(ss, s), s.version) == Without(ss, s.version) <==> Gathered(ss, s.version)
  {
    var v := s.version;
    var l, q := LastOf(ss, v), StopOf(ss, v, false);
    LastShape(ss, v);
    var f := StopShape(ss, v);
    SplicedFilters(ss, s, l, q);
    if q <= l {
      DoublesWhenScattered(ss, v, q, l);
      assert ss[f].version == v && ss[q].version != v && ss[l].version == v;
    } else {
      assert ss[q - 1].version == v;
      assert q == l + 1;
      StaysWhenGathered(ss, v, l);
    }
  }

  /** And it leaves exactly one section of that version if and only if there was one. */
  lemma OneStaysIff(ss: seq<Section>, s: Section)
    requires HasVersion(ss, s.version)
    ensures With(Spliced(ss, s), s.version) == [s] <==> Once(ss, s.version)
  {
    var v := s.version;
    var l, q := LastOf(ss, v), StopOf(ss, v, false);
    LastShape(ss, v);
    var f := StopShape(ss, v);
    SplicedFilters(ss, s, l, q);
    if f < l {
      assert ss[..l] == ss[..f] + ss[f..l] && ss[f..l][0] == ss[f];
      FiltersAppend(ss[..f], ss[f..l], v);
    } else {
      AbsentVersion(ss[..l], v);
      AbsentVersion(ss[q..], v);
      assert [] + [s] + [] == [s];
    }
  }

  /** Two sections of one version with another between them: the other is doubled and both old
      ones stay. */
  lemma RepeatedVersionDoubles(a: Section, b: Section, c: Section, s: Section)
    requires a.version == c.version == s.version != b.version
    ensures Spliced([a, b, c], s) == [a, b, s, b, c]
  {
    var ss, v := [a, b, c], s.version;
    assert ss[0].version == v && ss[1].version != v && ss[2].version == v;
    LastShape(ss, v);
    var f := StopShape(ss, v);
    assert LastOf(ss, v) == 2 && StopOf(ss, v, false) == 1;
    assert ss[..2] + [s] + ss[1..] == [a, b, s, b, c];
  }

  // ---- at most one section per version ----

  function ReplaceIn(ss: seq<Section>, s: Section): (r: seq<Section>)
    ensures |r| == |ss|
  {
    seq(|ss|, i requires 0 <= i < |ss| => if ss[i].version == s.version then s else ss[i])
  }

  /** Then the section is replaced in its place. */
  lemma SplicedIsReplaced(ss: seq<Section>, s: Section)
    requires Distinct(ss) && HasVersion(ss, s.version)
    ensures Spliced(ss, s) == ReplaceIn(ss, s)
  {
    var v := s.version;
    var l, q := LastOf(ss, v), StopOf(ss, v, false);
    LastShape(ss, v);
    var f := StopShape(ss, v);
    assert ss[f].version == v && ss[l].version == v && ss[q - 1].version == v;
    assert f == l && q == l + 1;
  }

  // The two lines of the title.
  const TITLE_LINES := [[35, 32, 67, 104, 97, 110, 103, 101, 108, 111, 103], []]

  /** With no file yet, the writer creates the document of the title and one section. */
  lemma WriteCreates(v: seq<int>, date: seq<int>, classified: seq<int>)
    ensures Written(None, v, date, classified) == DocText(Doc(TITLE_LINES, [NewSection(v, date, classified)]))
    ensures BodyLines(TITLE_LINES)
  {
    var s := NewSection(v, date, classified);
    NewSectionLines(v, date, classified);
    InsertLines(TITLE_LINES, SectionLines(s), [], SectionText(v, date, classified));
    assert Unlines(TITLE_LINES[1..]) == NEWLINE;
    assert Unlines(TITLE_LINES) == TITLE;
    assert SectionLines(s) + [] == SectionLines(s) == AllLines([s]);
    assert TITLE + SectionText(v, date, classified) + NEWLINE + [] == TITLE + SectionText(v, date, classified) + NEWLINE;
    assert TITLE_LINES[0][1] == 32;
    assert !StartsWith(TITLE_LINES[0], [35, 35]) && BodyLine([]);
  }

  predicate GoodClassified(classified: seq<int>) {
    BodyLines(Split(BodyText(classified), NEWLINE))
  }

  lemma NewIsGood(v: seq<int>, date: seq<int>, classified: seq<int>)
    requires GoodVersion(v) && R.IsDate(date) && GoodClassified(classified)
    ensures GoodSection(NewSection(v, date, classified))
  {
    assert BodyLine([]);
  }

  /** The result is again a document in scope. */
  lemma WriteKeepsGood(d: Doc, s: Section)
    requires GoodDoc(d) && GoodSection(s)
    ensures GoodDoc(WriteDoc(d, s))
    ensures HasVersion(WriteDoc(d, s).sections, s.version)
  {
    var ss := WriteDoc(d, s).sections;
    assert BodyLine([]);
    if HasVersion(d.sections, s.version) {
      SplicedIsReplaced(d.sections, s);
      var m :| 0 <= m < |d.sections| && d.sections[m].version == s.version;
      assert ss[m].version == s.version;
      assert forall i :: 0 <= i < |ss| ==> ss[i].version == d.sections[i].version && GoodSection(ss[i]);
    } else {
      assert ss[0].version == s.version;
      assert ss[1..] == d.sections;
    }
  }

  lemma WriteDocTwice(d: Doc, s: Section)
    requires GoodDoc(d) && GoodSection(s)
    ensures WriteDoc(WriteDoc(d, s), s) == WriteDoc(d, s)
  {
    WriteKeepsGood(d, s);
    var ss := WriteDoc(d, s).sections;
    if HasVersion(d.sections, s.version) {
      SplicedIsReplaced(d.sections, s);
    }
    SplicedIsReplaced(ss, s);
    assert forall i :: 0 <= i < |ss| && ss[i].version == s.version ==> ss[i] == s;
    assert ReplaceIn(ss, s) == ss;
  }

  /** Writing the same section twice is writing it once. */
  lemma WritingTwiceIsWritingOnce(d: Doc, v: seq<int>, date: seq<int>, classified: seq<int>)
    requires GoodDoc(d) && GoodVersion(v) && R.IsDate(date) && GoodClassified(classified)
    ensures var once := Written(Some(DocText(d)), v, date, classified);
            Written(Some(once), v, date, classified) == once
  {
    var s := NewSection(v, date, classified);
    NewIsGood(v, date, classified);
    WriteEditsSections(d, v, date, classified);
    WriteKeepsGood(d, s);
    WriteEditsSections(WriteDoc(d, s), v, date, classified);
    WriteDocTwice(d, s);
  }

  /** And that holds from the very first write on. */
  lemma CreatingTwiceIsCreatingOnce(v: seq<int>, date: seq<int>, classified: seq<int>)
    requires GoodVersion(v) && R.IsDate(date) && GoodClassified(classified)
    ensures var once := Written(None, v, date, classified);
            Written(Some(once), v, date, classified) == once
  {
    var s := NewSection(v, date, classified);
    var d := Doc(TITLE_LINES, [s]);
    NewIsGood(v, date, classified);
    WriteCreates(v, date, classified);
    WriteEditsSections(d, v, date, classified);
    assert d.sections[0].version == v;
    SplicedIsReplaced([s], s);
    assert ReplaceIn([s], s) == [s];
  }

  /** A write leaves every other section unchanged and in order, and leaves exactly one
      section of its own version: the one written. */
  lemma OtherSectionsStay(d: Doc, s: Section)
    requires GoodDoc(d)
    ensures Without(WriteDoc(d, s).sections, s.version) == Without(d.sections, s.version)
    ensures With(WriteDoc(d, s).sections, s.version) == [s]
    ensures d.preamble <= WriteDoc(d, s).preamble
  {
    if HasVersion(d.sections, s.version) {
      OthersStayIff(d.sections, s);
      OneStaysIff(d.sections, s);
    } else {
      AbsentVersion(d.sections, s.version);
      var ss := WriteDoc(d, s).sections;
      assert ss[0] == s && ss[1..] == d.sections;
    }
  }
}
