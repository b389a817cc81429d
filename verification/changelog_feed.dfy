/** Reading a written changelog back: what parseEntries makes of a document that
    write_changelog produced or edited. */
module ChangelogFeed {
  import opened Options
  import opened Text
  import opened ChangelogReader
  import opened Changelog
  import W = ChangelogWriter

  // ---- where the heading regex cannot match ----

  // The text begins with the line `line`.
  predicate Begins(s: seq<int>, line: seq<int>) {
    |line| < |s| && s[..|line|] == line && s[|line|] == 10
  }

  lemma {:induction false} LeadStops(x: seq<int>, y: seq<int>)
    requires Lead(x, JsSpace) < |x|
    ensures Lead(x + y, JsSpace) == Lead(x, JsSpace)
  {
    if JsSpace(x[0]) {
      LeadStops(x[1..], y);
      assert (x + y)[1..] == x[1..] + y;
    }
  }

  /** A body line is no heading, whatever text follows it. */
  lemma BodyNoMatch(s: seq<int>, line: seq<int>)
    requires BodyLine(line) && Begins(s, line)
    ensures MatchHead(s).None?
  {
    if StartsWith(s, [35, 35]) {
      assert s[0] == 35 && s[1] == 35;
      assert |line| >= 2 && line[..2] == [35, 35];
      assert s[2..] == line[2..] + s[|line|..];
      LeadStops(line[2..], s[|line|..]);
    }
  }

  ghost predicate Clear(at: Finder, a: nat, b: nat) {
    forall j: nat :: a <= j < b ==> at(j).None?
  }

  lemma LineClear(md: seq<int>, p: nat, line: seq<int>)
    requires p <= |md| && BodyLine(line) && Begins(md[p..], line)
    ensures Clear(Headings(md), p, p + |line| + 1)
  {
    BodyNoMatch(md[p..], line);
    forall j: nat | p < j < p + |line| + 1 ensures MatchAt(md, j).None? {
      assert md[j - 1] == md[p..][..|line|][j - 1 - p];
    }
  }

  lemma AfterLine(md: seq<int>, p: nat, line: seq<int>, more: seq<int>)
    requires p <= |md| && md[p..] == line + NEWLINE + more
    ensures var q := p + |line| + 1; q <= |md| && md[q..] == more
    ensures Begins(md[p..], line)
  {
    var q := p + |line| + 1;
    assert md[q..] == md[p..][|line| + 1..];
  }

  lemma {:induction false} LinesClear(md: seq<int>, p: nat, lines: seq<seq<int>>, rest: seq<int>)
    requires p <= |md| && md[p..] == W.Unlines(lines) + rest && BodyLines(lines)
    ensures Clear(Headings(md), p, p + |W.Unlines(lines)|)
    decreases |lines|
  {
    if lines != [] {
      var q, more := p + |lines[0]| + 1, W.Unlines(lines[1..]) + rest;
      assert W.Unlines(lines) + rest == lines[0] + NEWLINE + more;
      AfterLine(md, p, lines[0], more);
      LineClear(md, p, lines[0]);
      LinesClear(md, q, lines[1..], rest);
    }
  }

  // ---- where it does ----

  lemma {:induction false} VersionRunStops(v: seq<int>, rest: seq<int>)
    requires NoBracket(v)
    ensures VersionRun(v + [93] + rest) == |v|
  {
    var s := v + [93] + rest;
    if v != [] {
      assert s[0] == v[0] && s[1..] == v[1..] + [93] + rest;
      VersionRunStops(v[1..], rest);
    }
  }

  lemma {:induction false} LineEndFound(s: seq<int>, k: nat)
    requires k <= |s| && s != [] && Terminator(s[0])
    ensures 0 <= LineEnd(s, k)
  {
    if k > 0 && k < |s| && !Terminator(s[k]) {
      LineEndFound(s, k - 1);
    }
  }

  // How far the heading's match runs into the text after it.
  function Reach(g: seq<int>): (r: nat)
    requires g != [] && Terminator(g[0])
    ensures r <= |g|
  {
    LineEndFound(g, SpaceRun(g));
    LineEnd(g, SpaceRun(g))
  }

  lemma ReachIsBlank(g: seq<int>)
    requires g != [] && Terminator(g[0])
    ensures All(g[..Reach(g)], JsSpace)
  {
    TrimStartShape(g, JsSpace);
    assert forall i :: 0 <= i < SpaceRun(g) ==> g[i] == g[..SpaceRun(g)][i];
  }

  lemma OneSpace(s: seq<int>)
    requires s != [] && !JsSpace(s[0])
    ensures SpaceRun([32] + s) == 1
  {
    var t := [32] + s;
    assert t[1..] == s && JsSpace(t[0]);
    assert Lead(s, JsSpace) == 0;
    assert Lead(t, JsSpace) == 1 + Lead(t[1..], JsSpace);
  }

  // " - date" and then g
  predicate DateTail(s: seq<int>, d: seq<int>, g: seq<int>) {
    && |s| == 13 + |g| && s[0] == 32 && s[1] == 45 && s[2] == 32 && s[3..13] == d && s[13..] == g
    && IsDate(d) && g != [] && Terminator(g[0])
  }

  // Stages of the regex, evaluated on the pieces they find.
  lemma EvalDate(v: seq<int>, before: nat, s: seq<int>, t: seq<int>, d: seq<int>, g: seq<int>, k: nat)
    requires |s| >= 2 && SpaceRun(s) == 1 && s[1] == 45 && s[2..] == t
    requires |t| >= 11 && SpaceRun(t) == 1 && t[1..11] == d && IsDate(d)
    requires t[11..] == g && LineEnd(g, SpaceRun(g)) == k
    ensures MatchDate(v, before, s) == Some(Match(v, d, before + 13 + k))
  {
  }

  lemma EvalHead(s: seq<int>, b: seq<int>, r: Option<Match>)
    requires StartsWith(s, [35, 35]) && |s| >= 4 && s[3] == 91 && SpaceRun(s[2..]) == 1 && s[4..] == b
    requires MatchVersion(4, b) == r
    ensures MatchHead(s) == r
  {
  }

  lemma DateMatches(v: seq<int>, before: nat, s: seq<int>, d: seq<int>, g: seq<int>)
    requires DateTail(s, d, g)
    ensures MatchDate(v, before, s) == Some(Match(v, d, before + 13 + Reach(g)))
  {
    DatePieces(s, d, g);
    EvalDate(v, before, s, s[2..], d, g, Reach(g));
  }

  lemma DatePieces(s: seq<int>, d: seq<int>, g: seq<int>)
    requires DateTail(s, d, g)
    ensures SpaceRun(s) == 1 && SpaceRun(s[2..]) == 1
    ensures s[2..][1..11] == d && s[2..][11..] == g
  {
    var t := s[2..];
    assert s == [32] + s[1..];
    OneSpace(s[1..]);
    assert IsDigit(d[0]) && t[1] == s[3..13][0];
    assert t == [32] + t[1..];
    OneSpace(t[1..]);
  }

  // s begins with the heading of version v and date d, and g follows.
  predicate DatedHeading(s: seq<int>, v: seq<int>, d: seq<int>, g: seq<int>) {
    && GoodVersion(v) && |s| == 18 + |v| + |g|
    && s[0] == 35 && s[1] == 35 && s[2] == 32 && s[3] == 91
    && s[4..4 + |v|] == v && s[4 + |v|] == 93
    && DateTail(s[5 + |v|..], d, g)
  }

  lemma VersionCut(s: seq<int>, v: seq<int>, d: seq<int>, g: seq<int>)
    requires DatedHeading(s, v, d, g)
    ensures var b := s[4..]; VersionRun(b) == |v| && b[..|v|] == v && DateTail(b[|v| + 1..], d, g)
  {
    assert s[4..] == v + [93] + s[5 + |v|..];
    VersionRunStops(v, s[5 + |v|..]);
    assert s[4..][|v| + 1..] == s[5 + |v|..];
  }

  lemma TailMatches(s: seq<int>, v: seq<int>, d: seq<int>, g: seq<int>)
    requires DatedHeading(s, v, d, g)
    ensures MatchVersion(4, s[4..]) == Some(Match(v, d, 18 + |v| + Reach(g)))
  {
    VersionCut(s, v, d, g);
    VersionThenDate(s[4..], |v|, d, g);
  }

  /** A written heading is matched with its version and its date. */
  lemma HeadingMatches(s: seq<int>, v: seq<int>, d: seq<int>, g: seq<int>)
    requires DatedHeading(s, v, d, g)
    ensures MatchHead(s) == Some(Match(v, d, 18 + |v| + Reach(g)))
  {
    TailMatches(s, v, d, g);
    BracketMatches(s, Some(Match(v, d, 18 + |v| + Reach(g))));
  }

  lemma BracketMatches(s: seq<int>, r: Option<Match>)
    requires |s| >= 4 && s[0] == 35 && s[1] == 35 && s[2] == 32 && s[3] == 91 && MatchVersion(4, s[4..]) == r
    ensures MatchHead(s) == r
  {
    assert s[2..] == [32] + s[3..];
    OneSpace(s[3..]);
    assert s[..2] == [35, 35];
    EvalHead(s, s[4..], r);
  }

  lemma HeadingShape(s: seq<int>, v: seq<int>, d: seq<int>, g: seq<int>)
    requires GoodVersion(v) && IsDate(d) && g != [] && Terminator(g[0]) && s == W.Heading(v, d) + g
    ensures DatedHeading(s, v, d, g)
  {
    var h := W.Heading(v, d);
    assert h == [35, 35, 32, 91] + v + [93, 32, 45, 32] + d;
    assert h[4..4 + |v|] == v && h[8 + |v|..] == d;
    assert s[4..4 + |v|] == v;
    var r := s[5 + |v|..];
    assert r[3..13] == s[8 + |v|..18 + |v|] == d;
    assert r[13..] == s[18 + |v|..] == g;
  }

  lemma {:induction false} VersionThenDate(b: seq<int>, n: nat, d: seq<int>, g: seq<int>)
    requires n == VersionRun(b) && 0 < n < |b| && DateTail(b[n + 1..], d, g)
    ensures MatchVersion(4, b) == Some(Match(b[..n], d, 18 + n + Reach(g)))
  {
    DateMatches(b[..n], 4 + n + 1, b[n + 1..], d, g);
  }

  // ---- one section of a document ----

  // At p there is the head of section s, which fills the text up to e.
  ghost predicate Sited(at: Finder, md: seq<int>, s: Section, p: nat, e: nat) {
    && at(p).Some? && at(p).value.version == s.version && at(p).value.date == s.date
    && p + at(p).value.length <= e <= |md|
    && Clear(at, p + at(p).value.length, e)
    && Trim(md[p + at(p).value.length..e], JsSpace) == Trim(W.Unlines(s.body), JsSpace)
  }

  lemma {:induction false} LeadStays(t: seq<int>, more: seq<int>)
    requires more == [] || !JsSpace(more[0])
    ensures Lead(t + more, JsSpace) <= |t|
  {
    if t == [] {
      assert t + more == more;
    } else {
      LeadStays(t[1..], more);
      assert (t + more)[1..] == t[1..] + more;
    }
  }

  lemma TrimDrop(t: seq<int>, k: nat)
    requires k <= |t| && All(t[..k], JsSpace)
    ensures Trim(t[k..], JsSpace) == Trim(t, JsSpace)
  {
    assert t[k..|t|] == t[k..];
    TrimPadded(t, JsSpace, k, |t|);
  }

  lemma ReachStays(t: seq<int>, more: seq<int>)
    requires t != [] && t[0] == 10 && (more == [] || !JsSpace(more[0]))
    ensures Reach(t + more) <= |t|
    ensures Trim(t[Reach(t + more)..], JsSpace) == Trim(t[1..], JsSpace)
  {
    var g := t + more;
    var k := Reach(g);
    LeadStays(t, more);
    ReachIsBlank(g);
    assert t[..k] == g[..k];
    TrimDrop(t, k);
    TrimDrop(t, 1);
  }

  // The text between the match and the next section trims to the section's body.
  lemma ReadBody(md: seq<int>, a: nat, e: nat, u: seq<int>, more: seq<int>)
    requires a < e <= |md| && md[a..e] == NEWLINE + u && (more == [] || !JsSpace(more[0]))
    ensures var k := Reach(NEWLINE + u + more); a + k <= e && Trim(md[a + k..e], JsSpace) == Trim(u, JsSpace)
  {
    var t := NEWLINE + u;
    ReachStays(t, more);
    ReadText(md, a, e, Reach(t + more), t);
    assert t[1..] == u;
  }

  lemma ReadText(md: seq<int>, a: nat, e: nat, k: nat, t: seq<int>)
    requires a + k <= e <= |md| && t == md[a..e]
    ensures md[a + k..e] == t[k..]
  {
  }

  lemma {:induction false} UnlinesEnds(lines: seq<seq<int>>)
    ensures var u := W.Unlines(lines); u == [] || u[|u| - 1] == 10
  {
    if lines != [] {
      UnlinesEnds(lines[1..]);
    }
  }

  ghost predicate HeadingAt(md: seq<int>, p: nat, v: seq<int>, d: seq<int>, g: seq<int>) {
    && p < |md| && AtStart(md, p) && GoodVersion(v) && IsDate(d) && g != [] && Terminator(g[0])
    && md[p..] == W.Heading(v, d) + g
  }

  ghost predicate BodyAt(md: seq<int>, a: nat, body: seq<seq<int>>, more: seq<int>) {
    a < |md| && md[a] == 10 && BodyLines(body) && md[a + 1..] == W.Unlines(body) + more
  }

  // All the rest of the proof needs of the regex: it takes headings and nothing in a body.
  ghost predicate Understands(at: Finder, md: seq<int>) {
    && (forall p, v, d, g :: HeadingAt(md, p, v, d, g) ==> at(p) == Some(Match(v, d, 18 + |v| + Reach(g))))
    && (forall a: nat, body, more :: BodyAt(md, a, body, more) ==> Clear(at, a, a + 1 + |W.Unlines(body)|))
  }

  lemma HeadSited(md: seq<int>, p: nat, v: seq<int>, d: seq<int>, g: seq<int>)
    requires HeadingAt(md, p, v, d, g)
    ensures MatchAt(md, p) == Some(Match(v, d, 18 + |v| + Reach(g)))
  {
    HeadingShape(md[p..], v, d, g);
    HeadingMatches(md[p..], v, d, g);
  }

  lemma BodyClear(md: seq<int>, a: nat, body: seq<seq<int>>, more: seq<int>)
    requires BodyAt(md, a, body, more)
    ensures Clear(Headings(md), a, a + 1 + |W.Unlines(body)|)
  {
    LinesClear(md, a + 1, body, more);
    assert BodyLine([]);
    LineClear(md, a, []);
  }

  lemma HeadingsUnderstand(md: seq<int>)
    ensures Understands(Headings(md), md)
  {
    forall p, v, d, g | HeadingAt(md, p, v, d, g)
      ensures Headings(md)(p) == Some(Match(v, d, 18 + |v| + Reach(g)))
    {
      HeadSited(md, p, v, d, g);
    }
    forall a: nat, body, more | BodyAt(md, a, body, more)
      ensures Clear(Headings(md), a, a + 1 + |W.Unlines(body)|)
    {
      BodyClear(md, a, body, more);
    }
  }

  // The heading h, the body u and what follows, in place.
  lemma Pieces(md: seq<int>, p: nat, h: seq<int>, u: seq<int>, more: seq<int>, a: nat, e: nat, g: seq<int>)
    requires p <= |md| && md[p..] == h + g && g == NEWLINE + u + more && a == p + |h| && e == a + 1 + |u|
    ensures a < e <= |md| && md[a] == 10 && md[a + 1..] == u + more && md[a..e] == NEWLINE + u && md[e..] == more
    ensures (u == [] || u[|u| - 1] == 10) ==> AtStart(md, e)
  {
    var s := md[p..];
    assert s[|h|..] == g && md[a..] == g;
    assert md[a + 1..] == g[1..] == u + more;
    assert md[a..e] == g[..1 + |u|] == NEWLINE + u;
    assert md[e..] == g[1 + |u|..] == more;
    assert md[e - 1] == g[|u|];
  }

  lemma ReadPieces(md: seq<int>, p: nat, h: seq<int>, u: seq<int>, more: seq<int>, a: nat, e: nat, g: seq<int>)
    requires p <= |md| && md[p..] == h + g && g == NEWLINE + u + more && a == p + |h| && e == a + 1 + |u|
    requires (u == [] || u[|u| - 1] == 10) && (more == [] || !JsSpace(more[0]))
    ensures a < e <= |md| && md[a] == 10 && md[a + 1..] == u + more && md[e..] == more && AtStart(md, e)
    ensures a + Reach(g) <= e && Trim(md[a + Reach(g)..e], JsSpace) == Trim(u, JsSpace)
  {
    Pieces(md, p, h, u, more, a, e, g);
    ReadBody(md, a, e, u, more);
  }

  lemma SectionAsText(s: Section, more: seq<int>)
    ensures var h, u := W.Heading(s.version, s.date), W.Unlines(s.body);
            && |h| == 8 + |s.version| + |s.date|
            && |W.Unlines(SectionLines(s))| == |h| + 1 + |u|
            && W.Unlines(SectionLines(s)) + more == h + (NEWLINE + u + more)
  {
    var h, u := W.Heading(s.version, s.date), W.Unlines(s.body);
    assert SectionLines(s)[1..] == s.body;
    assert (h + NEWLINE + u) + more == h + (NEWLINE + u + more);
  }

  lemma SectionParts(md: seq<int>, p: nat, s: Section, more: seq<int>, a: nat, e: nat, g: seq<int>)
    requires p <= |md| && md[p..] == W.Unlines(SectionLines(s)) + more && |s.date| == 10
    requires more == [] || !JsSpace(more[0])
    requires a == p + 18 + |s.version| && e == p + |W.Unlines(SectionLines(s))| && g == NEWLINE + W.Unlines(s.body) + more
    ensures e == a + 1 + |W.Unlines(s.body)| <= |md| && md[p..] == W.Heading(s.version, s.date) + g
    ensures md[a] == 10 && md[a + 1..] == W.Unlines(s.body) + more && md[e..] == more && AtStart(md, e)
    ensures a + Reach(g) <= e && Trim(md[a + Reach(g)..e], JsSpace) == Trim(W.Unlines(s.body), JsSpace)
  {
    SectionAsText(s, more);
    UnlinesEnds(s.body);
    ReadPieces(md, p, W.Heading(s.version, s.date), W.Unlines(s.body), more, a, e, g);
  }

  lemma SectionSited(at: Finder, md: seq<int>, p: nat, s: Section, more: seq<int>, e: nat)
    requires Understands(at, md) && p <= |md| && md[p..] == W.Unlines(SectionLines(s)) + more
    requires AtStart(md, p) && GoodSection(s) && (more == [] || !JsSpace(more[0]))
    requires e == p + |W.Unlines(SectionLines(s))|
    ensures e <= |md| && md[e..] == more && AtStart(md, e) && Sited(at, md, s, p, e)
  {
    var u := W.Unlines(s.body);
    var a, g := p + 18 + |s.version|, NEWLINE + u + more;
    SectionParts(md, p, s, more, a, e, g);
    Found(at, md, p, s, u, more, a, e, g);
    SiteOf(at, md, s, p, a, e, Reach(g));
  }

  lemma Found(at: Finder, md: seq<int>, p: nat, s: Section, u: seq<int>, more: seq<int>, a: nat, e: nat, g: seq<int>)
    requires Understands(at, md) && GoodSection(s) && u == W.Unlines(s.body) && g == NEWLINE + u + more
    requires a < e <= |md| && a == p + 18 + |s.version| && e == a + 1 + |u|
    requires AtStart(md, p) && md[a] == 10 && md[a + 1..] == u + more && md[p..] == W.Heading(s.version, s.date) + g
    ensures at(p) == Some(Match(s.version, s.date, a - p + Reach(g))) && Clear(at, a, e)
  {
    assert HeadingAt(md, p, s.version, s.date, g);
    assert BodyAt(md, a, s.body, more);
  }

  lemma SiteOf(at: Finder, md: seq<int>, s: Section, p: nat, a: nat, e: nat, k: nat)
    requires p < a && a + k <= e <= |md| && at(p) == Some(Match(s.version, s.date, a - p + k))
    requires Clear(at, a, e) && Trim(md[a + k..e], JsSpace) == Trim(W.Unlines(s.body), JsSpace)
    ensures Sited(at, md, s, p, e)
  {
  }

  // ---- all of them, in order ----

  ghost predicate AllSited(at: Finder, md: seq<int>, ss: seq<Section>, p: nat)
    decreases |ss|
  {
    if ss == [] then p == |md|
    else
      var e := p + |W.Unlines(SectionLines(ss[0]))|;
      Sited(at, md, ss[0], p, e) && AllSited(at, md, ss[1..], e)
  }

  lemma SectionsStartSolid(ss: seq<Section>)
    ensures var more := W.Unlines(AllLines(ss)); more == [] || !JsSpace(more[0])
    ensures W.Unlines(AllLines(ss)) == [] ==> ss == []
  {
    if ss != [] {
      var lines := AllLines(ss);
      assert lines[0] == W.Heading(ss[0].version, ss[0].date);
      assert W.Unlines(lines)[0] == lines[0][0] == 35;
    }
  }

  lemma {:induction false} SectionsSited(at: Finder, md: seq<int>, p: nat, ss: seq<Section>)
    requires Understands(at, md) && p <= |md| && md[p..] == W.Unlines(AllLines(ss)) && AtStart(md, p) && GoodSections(ss)
    ensures AllSited(at, md, ss, p)
    decreases |ss|
  {
    if ss != [] {
      var e, more := p + |W.Unlines(SectionLines(ss[0]))|, W.Unlines(AllLines(ss[1..]));
      UnlinesAppend(SectionLines(ss[0]), AllLines(ss[1..]));
      SectionsStartSolid(ss[1..]);
      assert GoodSection(ss[0]);
      SectionSited(at, md, p, ss[0], more, e);
      SectionsSited(at, md, e, ss[1..]);
    }
  }

  lemma {:induction false} HeadsClear(at: Finder, n: nat, a: nat, b: nat)
    requires Sane(at, n) && a <= b <= n && Clear(at, a, b)
    ensures Heads(at, n, a) == Heads(at, n, b)
    decreases b - a
  {
    if a < b {
      HeadsClear(at, n, a + 1, b);
    }
  }

  lemma {:induction false} HeadsFrom(at: Finder, md: seq<int>, s: Section, p: nat, e: nat)
    requires Sane(at, |md|) && Sited(at, md, s, p, e)
    ensures p < |md| && Heads(at, |md|, p) == [HeadOf(at(p).value, p)] + Heads(at, |md|, e)
  {
    HeadsClear(at, |md|, p + at(p).value.length, e);
  }

  // What the feed shows of a section.
  function EntryOf(s: Section): Entry {
    Entry(s.version, s.date, Trim(W.Unlines(s.body), JsSpace))
  }

  function EntriesOf(ss: seq<Section>): seq<Entry> {
    seq(|ss|, i requires 0 <= i < |ss| => EntryOf(ss[i]))
  }

  // Slicing from the front: the first head's text ends where the next one begins.
  lemma EntriesCons(md: seq<int>, h: Head, later: seq<Head>, e: nat)
    requires Laid([h] + later, 0, |md|) && Laid(later, 0, |md|) && h.index + h.length <= e <= |md|
    requires if later == [] then e == |md| else later[0].index == e
    ensures Entries(md, [h] + later) ==
            [Entry(h.version, h.date, Trim(md[h.index + h.length..e], JsSpace))] + Entries(md, later)
  {
    var heads, first := [h] + later, Entry(h.version, h.date, Trim(md[h.index + h.length..e], JsSpace));
    assert EntryAt(md, heads, 0) == first;
    forall i | 0 <= i < |heads| ensures Entries(md, heads)[i] == ([first] + Entries(md, later))[i] {
      if i > 0 {
        EntryShift(md, h, later, i);
      }
    }
  }

  lemma EntryShift(md: seq<int>, h: Head, later: seq<Head>, i: nat)
    requires Laid([h] + later, 0, |md|) && Laid(later, 0, |md|) && 0 < i <= |later|
    ensures EntryAt(md, [h] + later, i) == EntryAt(md, later, i - 1)
  {
    assert ([h] + later)[i] == later[i - 1];
    assert i < |later| ==> ([h] + later)[i + 1] == later[i];
  }

  lemma {:induction false} SitedFirst(at: Finder, md: seq<int>, ss: seq<Section>, p: nat)
    requires Sane(at, |md|) && AllSited(at, md, ss, p)
    ensures p <= |md|
    ensures var heads := Heads(at, |md|, p); if ss == [] then heads == [] && p == |md| else heads != [] && heads[0].index == p
  {
    if ss != [] {
      HeadsFrom(at, md, ss[0], p, p + |W.Unlines(SectionLines(ss[0]))|);
    }
  }

  lemma EntriesOfCons(ss: seq<Section>)
    requires ss != []
    ensures EntriesOf(ss) == [EntryOf(ss[0])] + EntriesOf(ss[1..])
  {
  }

  lemma SitedStep(md: seq<int>, h: Head, later: seq<Head>, ss: seq<Section>, e: nat)
    requires ss != [] && Laid([h] + later, 0, |md|) && Laid(later, 0, |md|) && h.index + h.length <= e <= |md|
    requires if later == [] then e == |md| else later[0].index == e
    requires Entry(h.version, h.date, Trim(md[h.index + h.length..e], JsSpace)) == EntryOf(ss[0])
    requires Entries(md, later) == EntriesOf(ss[1..])
    ensures Entries(md, [h] + later) == EntriesOf(ss)
  {
    EntriesCons(md, h, later, e);
    EntriesOfCons(ss);
  }

  lemma {:induction false} SitedHead(at: Finder, md: seq<int>, ss: seq<Section>, p: nat, e: nat)
    requires Sane(at, |md|) && AllSited(at, md, ss, p) && ss != [] && e == p + |W.Unlines(SectionLines(ss[0]))|
    ensures p < |md| && e <= |md| && AllSited(at, md, ss[1..], e) && at(p).Some?
    ensures var h, later := HeadOf(at(p).value, p), Heads(at, |md|, e);
            && Heads(at, |md|, p) == [h] + later && h.index + h.length <= e
            && (if later == [] then e == |md| else later[0].index == e)
            && Entry(h.version, h.date, Trim(md[h.index + h.length..e], JsSpace)) == EntryOf(ss[0])
  {
    HeadsFrom(at, md, ss[0], p, e);
    SitedFirst(at, md, ss[1..], e);
  }

  lemma {:induction false} SitedEntries(at: Finder, md: seq<int>, ss: seq<Section>, p: nat)
    requires Sane(at, |md|) && p <= |md| && AllSited(at, md, ss, p)
    ensures Laid(Heads(at, |md|, p), 0, |md|)
    ensures Entries(md, Heads(at, |md|, p)) == EntriesOf(ss)
    decreases |ss|
  {
    HeadsLaid(at, |md|, p);
    if ss != [] {
      var e := p + |W.Unlines(SectionLines(ss[0]))|;
      SitedHead(at, md, ss, p, e);
      SitedEntries(at, md, ss[1..], e);
      SitedStep(md, HeadOf(at(p).value, p), Heads(at, |md|, e), ss, e);
    }
  }

  /** Printer and parser meet: the feed's parse of a document is its sections in order, each
      with its version, its date and its trimmed body. */
  lemma FeedReadsSections(d: Doc)
    requires BodyLines(d.preamble) && GoodSections(d.sections)
    ensures AllEntries(DocText(d)) == EntriesOf(d.sections)
  {
    var md, pre := DocText(d), W.Unlines(d.preamble);
    DocSited(d, md, |pre|);
    HeadingsSane(md);
    HeadsClear(Headings(md), |md|, 0, |pre|);
    SitedEntries(Headings(md), md, d.sections, |pre|);
  }

  lemma DocSited(d: Doc, md: seq<int>, p: nat)
    requires BodyLines(d.preamble) && GoodSections(d.sections) && md == DocText(d) && p == |W.Unlines(d.preamble)|
    ensures p <= |md| && Clear(Headings(md), 0, p) && AllSited(Headings(md), md, d.sections, p)
  {
    var pre, more := W.Unlines(d.preamble), W.Unlines(AllLines(d.sections));
    UnlinesAppend(d.preamble, AllLines(d.sections));
    assert md[0..] == md && md[p..] == more;
    LinesClear(md, 0, d.preamble, more);
    UnlinesEnds(d.preamble);
    assert p > 0 ==> md[p - 1] == pre[p - 1];
    HeadingsUnderstand(md);
    SectionsSited(Headings(md), md, p, d.sections);
  }

  // ---- the feed after a write ----

  // The entries of other versions, and those of this one, in order.
  function EntriesWithout(entries: seq<Entry>, v: seq<int>): seq<Entry> {
    if entries == [] then []
    else (if entries[0].version == v then [] else [entries[0]]) + EntriesWithout(entries[1..], v)
  }

  function EntriesWith(entries: seq<Entry>, v: seq<int>): seq<Entry> {
    if entries == [] then []
    else (if entries[0].version == v then [entries[0]] else []) + EntriesWith(entries[1..], v)
  }

  lemma {:induction false} EntriesFiltered(ss: seq<Section>, v: seq<int>)
    ensures EntriesWithout(EntriesOf(ss), v) == EntriesOf(Without(ss, v))
    ensures EntriesWith(EntriesOf(ss), v) == EntriesOf(With(ss, v))
  {
    if ss != [] {
      EntriesFiltered(ss[1..], v);
      var all := EntriesOf(ss);
      assert all[0] == EntryOf(ss[0]) && all[1..] == EntriesOf(ss[1..]);
      EntriesOfJoin([ss[0]], Without(ss[1..], v));
      EntriesOfJoin([ss[0]], With(ss[1..], v));
      assert EntriesOf([ss[0]]) == [EntryOf(ss[0])];
    }
  }

  lemma EntriesOfJoin(xs: seq<Section>, ys: seq<Section>)
    ensures EntriesOf(xs + ys) == EntriesOf(xs) + EntriesOf(ys)
  {
  }

  lemma NewEntry(v: seq<int>, date: seq<int>, classified: seq<int>)
    ensures EntryOf(NewSection(v, date, classified)) == Entry(v, date, Trim(BodyText(classified), JsSpace))
  {
    var t := BodyText(classified);
    var u := NEWLINE + t + NEWLINE;
    BodyOfNew(classified);
    TrimPadded(u, JsSpace, 1, |u| - 1);
    assert u[1..|u| - 1] == t;
  }

  /** The round trip: in the feed of the changelog after a write, the version just written
      has exactly one entry, with its date and its trimmed text, and the entries of all
      other versions are those of the feed before the write, in the same order. */
  lemma FeedAfterWrite(d: Doc, v: seq<int>, date: seq<int>, classified: seq<int>)
    requires GoodDoc(d) && GoodVersion(v) && IsDate(date) && GoodClassified(classified)
    ensures var after := AllEntries(W.Written(Some(DocText(d)), v, date, classified));
            && EntriesWith(after, v) == [Entry(v, date, Trim(BodyText(classified), JsSpace))]
            && EntriesWithout(after, v) == EntriesWithout(AllEntries(DocText(d)), v)
  {
    var s := NewSection(v, date, classified);
    var d' := WriteDoc(d, s);
    NewIsGood(v, date, classified);
    WriteEditsSections(d, v, date, classified);
    WriteKeepsGood(d, s);
    FeedReadsSections(d);
    FeedReadsSections(d');
    OtherSectionsStay(d, s);
    EntriesFiltered(d.sections, v);
    EntriesFiltered(d'.sections, v);
    NewEntry(v, date, classified);
    assert EntriesOf([s]) == [EntryOf(s)];
  }

  /** And in the feed of a changelog just created it is the only entry. */
  lemma FeedAfterCreate(v: seq<int>, date: seq<int>, classified: seq<int>)
    requires GoodVersion(v) && IsDate(date) && GoodClassified(classified)
    ensures AllEntries(W.Written(None, v, date, classified)) == [Entry(v, date, Trim(BodyText(classified), JsSpace))]
  {
    var s := NewSection(v, date, classified);
    NewIsGood(v, date, classified);
    WriteCreates(v, date, classified);
    FeedReadsSections(Doc(TITLE_LINES, [s]));
    NewEntry(v, date, classified);
    assert EntriesOf([s]) == [EntryOf(s)];
  }
}
